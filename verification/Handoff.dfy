/** The hand-off of connections between the event loop, the workers and the return channel
    (src/server.rs, src/choir.rs), and of requests to the Temple thread, as a state machine whose runs
    are all interleavings. */
module Handoff {
  import opened Bytes

  /** The listener's own token. A notice for it asks the event loop to end the process. */
  const SERVER: Token := 0

  /** A decoded command: for the Temple thread, or answered by the worker itself. */
  datatype Job = Routed(id: nat) | Local(id: nat)

  /** A connection's place in its client's stream of commands. */
  datatype Pilgrim = Pilgrim(next: nat)

  /** A connection on its way, tagged with its client. */
  datatype Song = Song(token: Token, pilgrim: Pilgrim)

  datatype Wish = Wish(token: Token, job: Job)

  /** What is sent to the egress thread. */
  datatype Letter =
    | Welcome(token: Token)
    | Goodbye(token: Token)
    | Reply(wish: Wish)
    | OwnReply(wish: Wish)

  /** streams gives each client's commands in the order its connection decodes them. outbox and served
      are the logs of everything sent to the egress thread and received by the Temple thread; reached is
      how far each stream has been decoded; fallen are the workers a panic has ended, and ended says that one has ended
      the Temple thread. */
  datatype System = System(
    streams: Token -> seq<Job>,
    counter: Token,
    ingress: map<Token, Pilgrim>,
    choir: seq<Song>,
    angels: map<nat, Song>,
    returned: seq<Song>,
    wishes: seq<Wish>,
    served: seq<Wish>,
    outbox: seq<Letter>,
    taken: nat,
    notices: seq<Token>,
    reached: map<Token, nat>,
    fallen: set<nat>,
    ended: bool)

  function Start(streams: Token -> seq<Job>): System {
    System(streams, 1, map[], [], map[], [], [], [], [], 0, [], map[], {}, false)
  }

  /** One step of one thread. A step that is not possible leaves the system as it is. */
  datatype Step =
    | Accept
    | AcceptUnheard
    | TakeReturned
    | TakeNotice
    | Dispatch(token: Token)
    | BeginSong(angel: nat)
    | GrantJob(angel: nat)
    | EndSong(angel: nat)
    | FailSong(angel: nat)
    | PanicSong(angel: nat)
    | ServeWish
    | PanicWish
    | ServeDecree(writeFails: bool)
    | Interrupt

  function Next(s: System, step: Step): System {
    match step
    case Accept =>
      s.(counter := s.counter + 1, ingress := s.ingress[s.counter := Pilgrim(0)],
         outbox := s.outbox + [Welcome(s.counter)], reached := s.reached[s.counter := 0])
    case AcceptUnheard =>
      s.(counter := s.counter + 1, ingress := s.ingress - {s.counter}, reached := s.reached[s.counter := 0])
    case TakeReturned =>
      if s.returned == [] then s
      else s.(ingress := s.ingress[s.returned[0].token := s.returned[0].pilgrim], returned := s.returned[1..])
    case TakeNotice =>
      if s.notices == [] then s
      else s.(ingress := s.ingress - {s.notices[0]}, notices := s.notices[1..])
    case Dispatch(t) =>
      if t !in s.ingress then s
      else s.(ingress := s.ingress - {t}, choir := s.choir + [Song(t, s.ingress[t])])
    case BeginSong(w) =>
      if s.choir == [] || w in s.angels || w in s.fallen then s
      else s.(choir := s.choir[1..], angels := s.angels[w := s.choir[0]])
    case GrantJob(w) =>
      if w !in s.angels then s else GrantNext(s, w)
    case EndSong(w) =>
      if w !in s.angels then s
      else s.(angels := s.angels - {w}, returned := s.returned + [s.angels[w]])
    case FailSong(w) =>
      if w !in s.angels then s
      else s.(angels := s.angels - {w}, outbox := s.outbox + [Goodbye(s.angels[w].token)])
    case PanicSong(w) =>
      if w !in s.angels then s
      else s.(angels := s.angels - {w}, fallen := s.fallen + {w})
    case ServeWish =>
      if s.wishes == [] || s.ended then s
      else s.(wishes := s.wishes[1..], served := s.served + [s.wishes[0]],
              outbox := s.outbox + [Reply(s.wishes[0])])
    case PanicWish =>
      if s.wishes == [] then s else s.(ended := true)
    case ServeDecree(writeFails) =>
      if s.taken >= |s.outbox| then s
      else
        var d := s.outbox[s.taken];
        s.(taken := s.taken + 1, notices := s.notices + ToldOf(d, writeFails))
    case Interrupt =>
      s.(notices := s.notices + [SERVER])
  }

  /** The worker decodes its connection's next command and passes it on. */
  function GrantNext(s: System, w: nat): System
    requires w in s.angels
  {
    var t, n := s.angels[w].token, s.angels[w].pilgrim.next;
    if n >= |s.streams(t)| then s
    else
      var wish := Wish(t, s.streams(t)[n]);
      s.(angels := s.angels[w := Song(t, Pilgrim(n + 1))],
         wishes := if wish.job.Routed? then s.wishes + [wish] else s.wishes,
         outbox := if wish.job.Routed? then s.outbox else s.outbox + [OwnReply(wish)],
         reached := s.reached[t := n + 1])
  }

  /** The egress thread tells the event loop of a farewell, and of a failed write of a reply. */
  function ToldOf(d: Letter, writeFails: bool): seq<Token> {
    match d
    case Goodbye(t) => [t]
    case Welcome(_) => []
    case Reply(wish) => if writeFails then [wish.token] else []
    case OwnReply(wish) => if writeFails then [wish.token] else []
  }

  function RunFrom(s: System, steps: seq<Step>): System {
    if steps == [] then s else Next(RunFrom(s, steps[..|steps| - 1]), steps[|steps| - 1])
  }

  function Run(streams: Token -> seq<Job>, steps: seq<Step>): System {
    RunFrom(Start(streams), steps)
  }

  lemma {:induction false} RunsJoin(s: System, first: seq<Step>, second: seq<Step>)
    ensures RunFrom(s, first + second) == RunFrom(RunFrom(s, first), second)
  {
    if second == [] {
      assert first + second == first;
    } else {
      var n := |second| - 1;
      RunsJoin(s, first, second[..n]);
      assert (first + second)[..|first + second| - 1] == first + second[..n];
    }
  }

  function Times(n: nat, step: Step): seq<Step> {
    seq(n, i => step)
  }

  lemma TimesOn(n: nat, step: Step)
    ensures Times(n + 1, step) == Times(n, step) + [step]
  {
  }

  lemma OneMoreStep(s: System, steps: seq<Step>, step: Step)
    ensures RunFrom(s, steps + [step]) == Next(RunFrom(s, steps), step)
  {
  }

  /* ----- exclusive ownership ----- */

  /** The places a connection can be. */
  datatype Spot = InIngress | InChoir(i: nat) | WithAngel(w: nat) | InReturn(i: nat)

  function Holding(s: System, spot: Spot, t: Token): Option<Pilgrim> {
    match spot
    case InIngress => if t in s.ingress then Some(s.ingress[t]) else None
    case InChoir(i) => if i < |s.choir| && s.choir[i].token == t then Some(s.choir[i].pilgrim) else None
    case WithAngel(w) => if w in s.angels && s.angels[w].token == t then Some(s.angels[w].pilgrim) else None
    case InReturn(i) => if i < |s.returned| && s.returned[i].token == t then Some(s.returned[i].pilgrim) else None
  }

  ghost predicate Exclusive(s: System) {
    forall t: Token, a: Spot, b: Spot :: Holding(s, a, t).Some? && Holding(s, b, t).Some? ==> a == b
  }

  /** Every connection belongs to an accepted client and stands where its stream has been decoded to. */
  ghost predicate InStep(s: System) {
    forall t: Token, a: Spot ::
      Holding(s, a, t).Some? ==>
        t in s.reached && Holding(s, a, t).value.next == s.reached[t]
  }

  ghost predicate Known(s: System) {
    && (forall t: Token :: t in s.reached <==> 1 <= t < s.counter)
    && (forall t: Token :: t in s.reached ==> s.reached[t] <= |s.streams(t)|)
  }

  /** Where a connection was before a step, given where it is after it. */
  function Before(s: System, step: Step, t: Token, spot: Spot): Spot {
    match step
    case TakeReturned =>
      if s.returned == [] then spot
      else if spot.InIngress? && t == s.returned[0].token then InReturn(0)
      else if spot.InReturn? then InReturn(spot.i + 1)
      else spot
    case Dispatch(t') =>
      if t' in s.ingress && spot == InChoir(|s.choir|) then InIngress else spot
    case BeginSong(w) =>
      if s.choir == [] || w in s.angels || w in s.fallen then spot
      else if spot == WithAngel(w) then InChoir(0)
      else if spot.InChoir? then InChoir(spot.i + 1)
      else spot
    case EndSong(w) =>
      if w in s.angels && spot == InReturn(|s.returned|) then WithAngel(w) else spot
    case _ => spot
  }

  /** Steps only move connections: nothing is copied, and two places stay two places. */
  lemma StepMoves(s: System, step: Step, t: Token, spot: Spot)
    requires Holding(Next(s, step), spot, t).Some?
    requires !((step.Accept? || step.AcceptUnheard?) && t == s.counter)
    ensures Holding(s, Before(s, step, t, spot), t).Some?
    ensures !step.GrantJob? ==>
              Holding(Next(s, step), spot, t) == Holding(s, Before(s, step, t, spot), t)
  {
  }

  lemma BeforeIsInjective(s: System, step: Step, t: Token, a: Spot, b: Spot)
    requires Holding(Next(s, step), a, t).Some? && Holding(Next(s, step), b, t).Some?
    requires Before(s, step, t, a) == Before(s, step, t, b)
    requires Exclusive(s)
    ensures a == b
  {
  }

  lemma StepKeepsExclusive(s: System, step: Step)
    requires Exclusive(s) && InStep(s) && Known(s)
    ensures Exclusive(Next(s, step))
  {
    var s' := Next(s, step);
    forall t: Token, a: Spot, b: Spot | Holding(s', a, t).Some? && Holding(s', b, t).Some?
      ensures a == b
    {
      if (step.Accept? || step.AcceptUnheard?) && t == s.counter {
        NewcomerIsInIngress(s, step, a);
        NewcomerIsInIngress(s, step, b);
      } else {
        StepMoves(s, step, t, a);
        StepMoves(s, step, t, b);
        BeforeIsInjective(s, step, t, a, b);
      }
    }
  }

  lemma NewcomerIsInIngress(s: System, step: Step, a: Spot)
    requires step.Accept? || step.AcceptUnheard?
    requires InStep(s) && Known(s) && Holding(Next(s, step), a, s.counter).Some?
    ensures step.Accept? && a == InIngress
  {
    assert Holding(s, a, s.counter).None?;
  }

  lemma StepKeepsKnown(s: System, step: Step)
    requires InStep(s) && Known(s) && s.counter >= 1
    ensures Known(Next(s, step)) && Next(s, step).counter >= 1
  {
    AngelsAreKnown(s);
  }

  lemma StepKeepsInStep(s: System, step: Step)
    requires Exclusive(s) && InStep(s) && Known(s)
    ensures InStep(Next(s, step))
  {
    var s' := Next(s, step);
    forall t: Token, a: Spot | Holding(s', a, t).Some?
      ensures t in s'.reached && Holding(s', a, t).value.next == s'.reached[t]
    {
      if (step.Accept? || step.AcceptUnheard?) && t == s.counter {
        NewcomerIsInIngress(s, step, a);
      } else {
        StepMoves(s, step, t, a);
        if step.GrantJob? && step.angel in s.angels && t == s.angels[step.angel].token {
          assert Holding(s, WithAngel(step.angel), t).Some?;
          assert a == WithAngel(step.angel);
        }
      }
    }
  }

  /* ----- order of requests ----- */

  /** One client's part of a log of requests. */
  function Mine(ws: seq<Wish>, t: Token): seq<Job> {
    if ws == [] then []
    else Mine(ws[..|ws| - 1], t) + if ws[|ws| - 1].token == t then [ws[|ws| - 1].job] else []
  }

  /** The commands of a stream that go to the Temple thread. */
  function RoutedOf(jobs: seq<Job>): seq<Job> {
    if jobs == [] then []
    else RoutedOf(jobs[..|jobs| - 1]) + if jobs[|jobs| - 1].Routed? then [jobs[|jobs| - 1]] else []
  }

  /** The requests the Temple thread has answered, read off everything sent to the egress thread. */
  function Replied(ds: seq<Letter>): seq<Wish> {
    if ds == [] then []
    else Replied(ds[..|ds| - 1]) + if ds[|ds| - 1].Reply? then [ds[|ds| - 1].wish] else []
  }

  /** What the Temple thread has received of a client, and what waits for it, is the routed part of the
      client's stream as far as it has been decoded. */
  ghost predicate OrderedFor(s: System, t: Token) {
    Mine(s.served + s.wishes, t) == RoutedOf(s.streams(t)[..Reach(s, t)])
  }

  /** And every request received has been answered, in order. */
  ghost predicate Ordered(s: System) {
    && (forall t: Token :: OrderedFor(s, t))
    && Replied(s.outbox) == s.served
  }

  function Reach(s: System, t: Token): nat {
    if t in s.reached && s.reached[t] <= |s.streams(t)| then s.reached[t] else 0
  }

  lemma OneMoreWish(ws: seq<Wish>, w: Wish, t: Token)
    ensures Mine(ws + [w], t) == Mine(ws, t) + if w.token == t then [w.job] else []
  {
  }

  lemma OneMoreJob(jobs: seq<Job>, n: nat)
    requires n < |jobs|
    ensures RoutedOf(jobs[..n + 1]) == RoutedOf(jobs[..n]) + if jobs[n].Routed? then [jobs[n]] else []
  {
    assert jobs[..n + 1][..n] == jobs[..n];
  }

  lemma OneMoreDecree(ds: seq<Letter>, d: Letter)
    ensures Replied(ds + [d]) == Replied(ds) + if d.Reply? then [d.wish] else []
  {
  }

  /** What a grant does to the log of requests and to the reach of its client. */
  lemma GrantGoesOn(s: System, w: nat)
    requires InStep(s) && Known(s) && w in s.angels
    requires s.angels[w].pilgrim.next < |s.streams(s.angels[w].token)|
    ensures var t, n, s' := s.angels[w].token, s.angels[w].pilgrim.next, GrantNext(s, w);
            var wish := Wish(t, s.streams(t)[n]);
            && s'.served + s'.wishes == s.served + s.wishes + (if wish.job.Routed? then [wish] else [])
            && s'.reached == s.reached[t := n + 1] && s'.streams == s.streams
            && Reach(s, t) == n
  {
    var t := s.angels[w].token;
    assert Holding(s, WithAngel(w), t).Some?;
    assert s.served + s.wishes + [] == s.served + s.wishes;
  }

  lemma GrantKeepsOrderedFor(s: System, w: nat, t: Token)
    requires InStep(s) && Known(s) && OrderedFor(s, t) && w in s.angels
    requires s.angels[w].pilgrim.next < |s.streams(s.angels[w].token)|
    ensures OrderedFor(GrantNext(s, w), t)
  {
    var client, n, s' := s.angels[w].token, s.angels[w].pilgrim.next, GrantNext(s, w);
    var wish := Wish(client, s.streams(client)[n]);
    GrantGoesOn(s, w);
    if wish.job.Routed? {
      OneMoreWish(s.served + s.wishes, wish, t);
    } else {
      assert s.served + s.wishes + [] == s.served + s.wishes;
    }
    if t == client {
      assert Reach(s', t) == n + 1;
      OneMoreJob(s.streams(t), n);
    } else {
      assert Reach(s', t) == Reach(s, t);
    }
  }

  lemma {:induction false} GrantKeepsOrdered(s: System, w: nat)
    requires InStep(s) && Known(s) && Ordered(s) && w in s.angels
    ensures Ordered(GrantNext(s, w))
  {
    var song, s' := s.angels[w], GrantNext(s, w);
    var t, n := song.token, song.pilgrim.next;
    if n < |s.streams(t)| {
      OneMoreDecree(s.outbox, OwnReply(Wish(t, s.streams(t)[n])));
      forall t: Token ensures OrderedFor(s', t) {
        assert OrderedFor(s, t);
        GrantKeepsOrderedFor(s, w, t);
      }
    }
  }

  /** A client's order rests on these parts of the system only. */
  lemma SameOrder(s: System, s': System)
    requires Ordered(s) && s'.served + s'.wishes == s.served + s.wishes
    requires s'.reached == s.reached && s'.streams == s.streams
    ensures forall t: Token :: OrderedFor(s', t)
  {
    forall t: Token ensures OrderedFor(s', t) {
      assert OrderedFor(s, t);
    }
  }

  lemma ServeKeepsOrdered(s: System)
    requires Ordered(s) && s.wishes != [] && !s.ended
    ensures Ordered(Next(s, ServeWish))
  {
    OneMoreDecree(s.outbox, Reply(s.wishes[0]));
    assert (s.served + [s.wishes[0]]) + s.wishes[1..] == s.served + s.wishes;
    SameOrder(s, Next(s, ServeWish));
  }

  lemma {:induction false} StepKeepsOrdered(s: System, step: Step)
    requires InStep(s) && Known(s) && Ordered(s)
    ensures Ordered(Next(s, step))
  {
    match step {
      case GrantJob(w) =>
        if w in s.angels {
          GrantKeepsOrdered(s, w);
        }
      case ServeWish =>
        if s.wishes != [] && !s.ended {
          ServeKeepsOrdered(s);
        } else {
          SameOrder(s, s);
        }
      case Accept =>
        OneMoreDecree(s.outbox, Welcome(s.counter));
        AcceptKeepsOrdered(s, step);
      case AcceptUnheard =>
        AcceptKeepsOrdered(s, step);
      case _ =>
        OtherStepKeepsOrdered(s, step);
    }
  }

  lemma OtherStepKeepsOrdered(s: System, step: Step)
    requires Ordered(s)
    requires !step.GrantJob? && !step.ServeWish? && !step.Accept? && !step.AcceptUnheard?
    ensures Ordered(Next(s, step))
  {
    SameOrder(s, Next(s, step));
    if step.FailSong? && step.angel in s.angels {
      OneMoreDecree(s.outbox, Goodbye(s.angels[step.angel].token));
    }
  }

  lemma AcceptKeepsOrdered(s: System, step: Step)
    requires step.Accept? || step.AcceptUnheard?
    requires Known(s) && Ordered(s)
    ensures forall t: Token :: OrderedFor(Next(s, step), t)
  {
    forall t: Token ensures OrderedFor(Next(s, step), t) {
      assert OrderedFor(s, t);
    }
  }

  ghost predicate Inv(s: System) {
    s.counter >= 1 && Known(s) && InStep(s) && Exclusive(s) && Ordered(s)
  }

  lemma StepKeepsInv(s: System, step: Step)
    requires Inv(s)
    ensures Inv(Next(s, step)) && Next(s, step).streams == s.streams
  {
    StepKeepsKnown(s, step);
    StepKeepsInStep(s, step);
    StepKeepsExclusive(s, step);
    StepKeepsOrdered(s, step);
  }

  lemma {:induction false} RunKeepsInv(streams: Token -> seq<Job>, steps: seq<Step>)
    ensures Inv(Run(streams, steps)) && Run(streams, steps).streams == streams
  {
    if steps != [] {
      var before, step := steps[..|steps| - 1], steps[|steps| - 1];
      RunKeepsInv(streams, before);
      StepKeepsInv(Run(streams, before), step);
    }
  }

  /** In every interleaving a client's connection is in at most one place. */
  lemma OneOwner(streams: Token -> seq<Job>, steps: seq<Step>, t: Token, a: Spot, b: Spot)
    requires Holding(Run(streams, steps), a, t).Some? && Holding(Run(streams, steps), b, t).Some?
    ensures a == b
  {
    RunKeepsInv(streams, steps);
  }

  /* ----- no connection is lost ----- */

  /** The steps that give up a client's connection: its song fails or panics, the loop holds it when a
      notice for it is taken, or its welcome goes unheard. */
  predicate Drops(s: System, step: Step, t: Token) {
    match step
    case FailSong(w) => w in s.angels && s.angels[w].token == t
    case PanicSong(w) => w in s.angels && s.angels[w].token == t
    case AcceptUnheard => t == s.counter
    case TakeNotice => s.notices != [] && s.notices[0] == t && t in s.ingress
    case _ => false
  }

  /** Where a connection is after a step, given where it was before it. */
  function Afterwards(s: System, step: Step, t: Token, spot: Spot): Spot {
    match step
    case TakeReturned =>
      if s.returned == [] || !spot.InReturn? then spot
      else if spot.i == 0 then InIngress
      else InReturn(spot.i - 1)
    case Dispatch(t') =>
      if t' == t && spot.InIngress? then InChoir(|s.choir|) else spot
    case BeginSong(w) =>
      if s.choir == [] || w in s.angels || w in s.fallen || !spot.InChoir? then spot
      else if spot.i == 0 then WithAngel(w)
      else InChoir(spot.i - 1)
    case EndSong(w) =>
      if spot == WithAngel(w) then InReturn(|s.returned|) else spot
    case _ => spot
  }

  lemma StepKeepsConnection(s: System, step: Step, t: Token, spot: Spot)
    requires Holding(s, spot, t).Some? && !Drops(s, step, t)
    ensures Holding(Next(s, step), Afterwards(s, step, t, spot), t).Some?
  {
  }

  /** In every interleaving every accepted client has its connection somewhere, unless a step has given
      it up. */
  lemma {:induction false} NoneLost(streams: Token -> seq<Job>, steps: seq<Step>, t: Token) returns (spot: Spot)
    requires t in Run(streams, steps).reached
    requires forall i :: 0 <= i < |steps| ==> !Drops(Run(streams, steps[..i]), steps[i], t)
    ensures Holding(Run(streams, steps), spot, t).Some?
  {
    if steps != [] {
      var n := |steps| - 1;
      var before, step := steps[..n], steps[n];
      var s := Run(streams, before);
      if t in s.reached {
        assert forall i :: 0 <= i < n ==> before[..i] == steps[..i];
        var was := NoneLost(streams, before, t);
        StepKeepsConnection(s, step, t, was);
        spot := Afterwards(s, step, t, was);
      } else {
        RunIsSound(streams, before);
        OnlyAcceptIsNew(s, step, t);
        spot := InIngress;
      }
    } else {
      spot := InIngress;
    }
  }

  lemma OnlyAcceptIsNew(s: System, step: Step, t: Token)
    requires InStep(s) && t !in s.reached && t in Next(s, step).reached
    ensures (step.Accept? || step.AcceptUnheard?) && t == s.counter
  {
    AngelsAreKnown(s);
  }

  lemma RunIsSound(streams: Token -> seq<Job>, steps: seq<Step>)
    ensures var s := Run(streams, steps); InStep(s) && Exclusive(s) && Known(s)
  {
    RunKeepsInv(streams, steps);
  }

  lemma AngelsAreKnown(s: System)
    requires InStep(s)
    ensures forall w :: w in s.angels ==> s.angels[w].token in s.reached
  {
    forall w | w in s.angels ensures s.angels[w].token in s.reached {
      assert Holding(s, WithAngel(w), s.angels[w].token).Some?;
    }
  }

  /** An accepted client whose connection is nowhere. */
  ghost predicate Gone(s: System, t: Token) {
    t in s.reached && forall a: Spot :: Holding(s, a, t).None?
  }

  /** A step that gives up a connection leaves it nowhere. */
  lemma DroppedIsGone(s: System, step: Step, t: Token)
    requires InStep(s) && Exclusive(s) && Known(s) && Drops(s, step, t)
    ensures Gone(Next(s, step), t)
  {
    DropsTheKnown(s, step, t);
    forall a: Spot ensures Holding(Next(s, step), a, t).None? {
      if step.AcceptUnheard? {
        assert Holding(s, a, t).None?;
      } else {
        var was := if step.TakeNotice? then InIngress else WithAngel(step.angel);
        assert Holding(s, was, t).Some?;
        assert a != was ==> Holding(s, a, t).None?;
      }
    }
  }

  /** And a connection that is nowhere never comes back. */
  lemma GoneStaysGone(s: System, step: Step, t: Token)
    requires Known(s) && InStep(s) && Gone(s, t)
    ensures Gone(Next(s, step), t)
  {
    AngelsAreKnown(s);
    forall a: Spot ensures Holding(Next(s, step), a, t).None? {
      if Holding(Next(s, step), a, t).Some? {
        StepMoves(s, step, t, a);
      }
    }
  }

  /** No step leads out of p. */
  ghost predicate Closed(p: iset<System>) {
    forall s, step :: s in p ==> Next(s, step) in p
  }

  lemma {:induction false} RunsStayIn(p: iset<System>, streams: Token -> seq<Job>, steps: seq<Step>, i: nat)
    requires Closed(p) && i <= |steps| && Run(streams, steps[..i]) in p
    ensures Run(streams, steps) in p
  {
    if i == |steps| {
      assert steps[..i] == steps;
    } else {
      var n := |steps| - 1;
      assert steps[..n][..i] == steps[..i];
      RunsStayIn(p, streams, steps[..n], i);
      assert Next(Run(streams, steps[..n]), steps[n]) in p;
    }
  }

  lemma DroppedStaysGone(streams: Token -> seq<Job>, steps: seq<Step>, t: Token, i: nat)
    requires i < |steps| && Drops(Run(streams, steps[..i]), steps[i], t)
    ensures Gone(Run(streams, steps), t)
  {
    var p := iset s | Inv(s) && Gone(s, t);
    forall s, step | s in p ensures Next(s, step) in p {
      StepKeepsInv(s, step);
      GoneStaysGone(s, step, t);
    }
    RunIsSound(streams, steps[..i]);
    DroppedIsGone(Run(streams, steps[..i]), steps[i], t);
    OneMoreStep(Start(streams), steps[..i], steps[i]);
    assert steps[..i + 1] == steps[..i] + [steps[i]];
    RunKeepsInv(streams, steps[..i + 1]);
    RunsStayIn(p, streams, steps, i + 1);
  }

  lemma DropsTheKnown(s: System, step: Step, t: Token)
    requires InStep(s) && Drops(s, step, t)
    ensures t in Next(s, step).reached
  {
    AngelsAreKnown(s);
    if step.TakeNotice? {
      assert Holding(s, InIngress, t).Some?;
    }
  }

  /** In every interleaving an accepted client's connection is somewhere if and only if no step has given
      it up. */
  lemma {:induction false} HeldUnlessDropped(streams: Token -> seq<Job>, steps: seq<Step>, t: Token)
    requires t in Run(streams, steps).reached
    ensures (exists spot :: Holding(Run(streams, steps), spot, t).Some?) <==>
            forall i :: 0 <= i < |steps| ==> !Drops(Run(streams, steps[..i]), steps[i], t)
  {
    if i :| 0 <= i < |steps| && Drops(Run(streams, steps[..i]), steps[i], t) {
      DroppedStaysGone(streams, steps, t, i);
    } else {
      var spot := NoneLost(streams, steps, t);
    }
  }

  lemma {:induction false} MineAppend(a: seq<Wish>, b: seq<Wish>, t: Token)
    ensures Mine(a + b, t) == Mine(a, t) + Mine(b, t)
  {
    if b == [] {
      assert a + b == a;
    } else {
      assert (a + b)[..|a + b| - 1] == a + b[..|b| - 1];
      MineAppend(a, b[..|b| - 1], t);
    }
  }

  lemma {:induction false} RoutedPrefix(jobs: seq<Job>, n: nat)
    requires n <= |jobs|
    ensures RoutedOf(jobs[..n]) <= RoutedOf(jobs)
  {
    if n == |jobs| {
      assert jobs[..n] == jobs;
    } else {
      RoutedPrefix(jobs[..|jobs| - 1], n);
      assert jobs[..|jobs| - 1][..n] == jobs[..n];
    }
  }

  /** In every interleaving the Temple thread receives each client's requests in the order of the client's
      stream: what it has received and what waits for it are together exactly the routed commands decoded
      so far. And it sends the egress thread exactly one decree for each request it has received, in the
      order received. */
  lemma RequestsKeepTheirOrder(streams: Token -> seq<Job>, steps: seq<Step>, t: Token)
    ensures var s := Run(streams, steps);
            && Mine(s.served, t) + Mine(s.wishes, t) == RoutedOf(s.streams(t)[..Reach(s, t)]) && s.streams == streams
            && Mine(s.served, t) <= RoutedOf(streams(t))
            && Replied(s.outbox) == s.served
  {
    RunKeepsInv(streams, steps);
    var s := Run(streams, steps);
    assert OrderedFor(s, t);
    MineAppend(s.served, s.wishes, t);
    RoutedPrefix(streams(t), Reach(s, t));
  }

  /* ----- welcomes and farewells ----- */

  function Client(d: Letter): Token {
    match d
    case Welcome(t) => t
    case Goodbye(t) => t
    case Reply(w) => w.token
    case OwnReply(w) => w.token
  }

  /** A letter comes in turn: a welcome to a new client, anything else to one welcomed before. */
  predicate InTurn(before: seq<Letter>, d: Letter) {
    if d.Welcome? then d !in before else Welcome(Client(d)) in before
  }

  predicate Courteous(ds: seq<Letter>) {
    ds != [] ==> Courteous(ds[..|ds| - 1]) && InTurn(ds[..|ds| - 1], ds[|ds| - 1])
  }

  lemma CourteousOn(ds: seq<Letter>, d: Letter)
    requires Courteous(ds) && InTurn(ds, d)
    ensures Courteous(ds + [d])
  {
    assert (ds + [d])[..|ds|] == ds;
  }

  /** Whoever has a connection or a request under way has been welcomed, and only accepted clients have. */
  ghost predicate Greeted(s: System) {
    && (forall t: Token, a: Spot :: Holding(s, a, t).Some? ==> Welcome(t) in s.outbox)
    && (forall w :: w in s.wishes ==> Welcome(w.token) in s.outbox)
    && (forall t: Token :: Welcome(t) in s.outbox ==> t in s.reached)
    && Courteous(s.outbox)
  }

  lemma HoldersAreGreeted(s: System, step: Step, t: Token, a: Spot)
    requires InStep(s) && Known(s) && Holding(Next(s, step), a, t).Some?
    requires forall t: Token, a: Spot :: Holding(s, a, t).Some? ==> Welcome(t) in s.outbox
    ensures Welcome(t) in Next(s, step).outbox
  {
    if (step.Accept? || step.AcceptUnheard?) && t == s.counter {
      NewcomerIsInIngress(s, step, a);
    } else {
      StepMoves(s, step, t, a);
    }
  }

  /** A step sends at most one letter, and it comes in turn. */
  lemma StepIsCourteous(s: System, step: Step)
    requires InStep(s) && Known(s) && Greeted(s)
    ensures Courteous(Next(s, step).outbox)
    ensures s.outbox <= Next(s, step).outbox
  {
    match step {
      case Accept =>
        CourteousOn(s.outbox, Welcome(s.counter));
      case GrantJob(w) =>
        if w in s.angels {
          var t, n := s.angels[w].token, s.angels[w].pilgrim.next;
          assert Holding(s, WithAngel(w), t).Some?;
          if n < |s.streams(t)| {
            CourteousOn(s.outbox, OwnReply(Wish(t, s.streams(t)[n])));
          }
        }
      case FailSong(w) =>
        if w in s.angels {
          assert Holding(s, WithAngel(w), s.angels[w].token).Some?;
          CourteousOn(s.outbox, Goodbye(s.angels[w].token));
        }
      case ServeWish =>
        if s.wishes != [] {
          assert s.wishes[0] in s.wishes;
          CourteousOn(s.outbox, Reply(s.wishes[0]));
        }
      case _ =>
    }
  }

  lemma WishesAreGreeted(s: System, step: Step, w: Wish)
    requires Greeted(s) && w in Next(s, step).wishes
    ensures Welcome(w.token) in s.outbox
  {
    if step.GrantJob? && w !in s.wishes {
      assert Holding(s, WithAngel(step.angel), w.token).Some?;
    }
  }

  lemma WelcomedAreKnown(s: System, step: Step, t: Token)
    requires InStep(s) && Greeted(s) && Welcome(t) in Next(s, step).outbox
    ensures t in Next(s, step).reached
  {
    AngelsAreKnown(s);
  }

  lemma StepKeepsGreeted(s: System, step: Step)
    requires InStep(s) && Known(s) && Greeted(s)
    ensures Greeted(Next(s, step))
  {
    var s' := Next(s, step);
    StepIsCourteous(s, step);
    forall t: Token, a: Spot | Holding(s', a, t).Some? ensures Welcome(t) in s'.outbox {
      HoldersAreGreeted(s, step, t, a);
    }
    forall w | w in s'.wishes ensures Welcome(w.token) in s'.outbox {
      WishesAreGreeted(s, step, w);
    }
    forall t: Token | Welcome(t) in s'.outbox ensures t in s'.reached {
      WelcomedAreKnown(s, step, t);
    }
  }

  lemma {:induction false} RunKeepsGreeted(streams: Token -> seq<Job>, steps: seq<Step>)
    ensures Greeted(Run(streams, steps))
  {
    if steps != [] {
      var before := steps[..|steps| - 1];
      RunIsSound(streams, before);
      RunKeepsGreeted(streams, before);
      StepKeepsGreeted(Run(streams, before), steps[|steps| - 1]);
    }
  }

  lemma {:induction false} CourteousPrefix(ds: seq<Letter>, n: nat)
    requires Courteous(ds) && n < |ds|
    ensures Courteous(ds[..n]) && InTurn(ds[..n], ds[n])
  {
    if n < |ds| - 1 {
      CourteousPrefix(ds[..|ds| - 1], n);
      assert ds[..|ds| - 1][..n] == ds[..n];
    }
  }

  /** In every interleaving whatever is sent to the egress thread about a client has exactly one welcome of
      that client, and it comes first. */
  lemma WelcomedOnceAndFirst(streams: Token -> seq<Job>, steps: seq<Step>, i: nat) returns (j: nat)
    requires i < |Run(streams, steps).outbox|
    ensures var outbox := Run(streams, steps).outbox;
            && j <= i && outbox[j] == Welcome(Client(outbox[i]))
            && forall k :: 0 <= k < |outbox| && outbox[k] == outbox[j] ==> k == j
  {
    RunKeepsGreeted(streams, steps);
    var outbox := Run(streams, steps).outbox;
    CourteousPrefix(outbox, i);
    if outbox[i].Welcome? {
      j := i;
    } else {
      j :| 0 <= j < i && outbox[j] == Welcome(Client(outbox[i]));
    }
    forall k | 0 <= k < |outbox| && outbox[k] == outbox[j] ensures k == j {
      WelcomedOnce(outbox, j, k);
    }
  }

  lemma WelcomedOnce(outbox: seq<Letter>, j: nat, k: nat)
    requires Courteous(outbox) && j < |outbox| && k < |outbox|
    requires outbox[j].Welcome? && outbox[j] == outbox[k]
    ensures j == k
  {
    var late, early := if j < k then k else j, if j < k then j else k;
    CourteousPrefix(outbox, late);
    forall x | 0 <= x < late ensures outbox[x] != outbox[late] {
      assert outbox[..late][x] == outbox[x];
    }
  }
}
