/** The commands a worker answers itself (src/wish/grant/ping.rs and its like): each is answered, once and in
    the client's order; and whether these answers keep their order with the Temple thread's. */
module OwnAnswers {
  import opened Bytes
  import opened Handoff
  import T = Temples
  import E = Egress
  import Heaven
  import Clients

  /** The commands of a stream that a worker answers itself. */
  function LocalOf(jobs: seq<Job>): seq<Job> {
    if jobs == [] then []
    else LocalOf(jobs[..|jobs| - 1]) + if jobs[|jobs| - 1].Local? then [jobs[|jobs| - 1]] else []
  }

  /** The commands workers have answered themselves, read off everything sent to the egress thread. */
  function OwnReplied(ds: seq<Letter>): seq<Wish> {
    if ds == [] then []
    else OwnReplied(ds[..|ds| - 1]) + if ds[|ds| - 1].OwnReply? then [ds[|ds| - 1].wish] else []
  }

  /** Every job is for one of the two. */
  lemma {:induction false} LocalOrRouted(jobs: seq<Job>)
    ensures |LocalOf(jobs)| + |RoutedOf(jobs)| == |jobs|
    ensures forall j :: j in LocalOf(jobs) ==> j.Local? && j in jobs
    ensures forall j :: j in RoutedOf(jobs) ==> j.Routed? && j in jobs
  {
    if jobs != [] {
      LocalOrRouted(jobs[..|jobs| - 1]);
    }
  }

  lemma OneMoreLocal(jobs: seq<Job>, n: nat)
    requires n < |jobs|
    ensures LocalOf(jobs[..n + 1]) == LocalOf(jobs[..n]) + if jobs[n].Local? then [jobs[n]] else []
  {
    assert jobs[..n + 1][..n] == jobs[..n];
  }

  lemma OneMoreOwn(ds: seq<Letter>, d: Letter)
    ensures OwnReplied(ds + [d]) == OwnReplied(ds) + if d.OwnReply? then [d.wish] else []
  {
  }

  /** What workers have sent a client themselves answers the local part of the client's stream, as far as it
      has been decoded. */
  ghost predicate OwnFor(s: System, t: Token) {
    Mine(OwnReplied(s.outbox), t) == LocalOf(s.streams(t)[..Reach(s, t)])
  }

  ghost predicate Own(s: System) {
    forall t: Token :: OwnFor(s, t)
  }

  /** A grant answers its command itself, if it is local, ... */
  lemma GrantReplies(s: System, w: nat, t: Token)
    requires w in s.angels && s.angels[w].pilgrim.next < |s.streams(s.angels[w].token)|
    ensures var client := s.angels[w].token;
            var job := s.streams(client)[s.angels[w].pilgrim.next];
            Mine(OwnReplied(GrantNext(s, w).outbox), t) ==
            Mine(OwnReplied(s.outbox), t) + if job.Local? && t == client then [job] else []
  {
    var client := s.angels[w].token;
    var wish := Wish(client, s.streams(client)[s.angels[w].pilgrim.next]);
    if wish.job.Local? {
      OneMoreOwn(s.outbox, OwnReply(wish));
      OneMoreWish(OwnReplied(s.outbox), wish, t);
    }
  }

  /** ... and goes on in its client's stream. */
  lemma GrantReaches(s: System, w: nat, t: Token)
    requires InStep(s) && Known(s) && w in s.angels
    requires s.angels[w].pilgrim.next < |s.streams(s.angels[w].token)|
    ensures var client, n, s' := s.angels[w].token, s.angels[w].pilgrim.next, GrantNext(s, w);
            && s'.streams == s.streams && Reach(s, client) == n
            && Reach(s', t) == if t == client then n + 1 else Reach(s, t)
  {
    GrantGoesOn(s, w);
  }

  lemma GrantKeepsOwnFor(s: System, w: nat, t: Token)
    requires InStep(s) && Known(s) && OwnFor(s, t) && w in s.angels
    requires s.angels[w].pilgrim.next < |s.streams(s.angels[w].token)|
    ensures OwnFor(GrantNext(s, w), t)
  {
    var n, s' := s.angels[w].pilgrim.next, GrantNext(s, w);
    GrantReplies(s, w, t);
    GrantReaches(s, w, t);
    if t == s.angels[w].token {
      OneMoreLocal(s.streams(t), n);
      assert s'.streams(t)[..Reach(s', t)] == s.streams(t)[..n + 1];
    } else {
      assert s'.streams(t)[..Reach(s', t)] == s.streams(t)[..Reach(s, t)];
    }
  }

  /** Only a grant answers anything itself, ... */
  lemma OtherStepSendsNoOwn(s: System, step: Step)
    requires !step.GrantJob?
    ensures var o, o' := s.outbox, Next(s, step).outbox;
            o' == o || (|o'| == |o| + 1 && o'[..|o|] == o && !o'[|o|].OwnReply?)
  {
  }

  /** ... and only a grant changes how far a stream has been decoded, but for a new client's start. */
  lemma OtherStepReaches(s: System, step: Step, t: Token)
    requires !step.GrantJob? && Known(s)
    ensures Reach(Next(s, step), t) == Reach(s, t) && Next(s, step).streams == s.streams
  {
  }

  lemma OtherStepOwns(s: System, step: Step, t: Token)
    requires !step.GrantJob? && Known(s) && OwnFor(s, t)
    ensures OwnFor(Next(s, step), t)
  {
    var o, o' := s.outbox, Next(s, step).outbox;
    OtherStepSendsNoOwn(s, step);
    OtherStepReaches(s, step, t);
    if o' != o {
      assert o' == o + [o'[|o|]];
      OneMoreOwn(o, o'[|o|]);
      assert OwnReplied(o) + [] == OwnReplied(o);
    }
  }

  lemma StepKeepsOwnFor(s: System, step: Step, t: Token)
    requires InStep(s) && Known(s) && OwnFor(s, t)
    ensures OwnFor(Next(s, step), t)
  {
    if !step.GrantJob? {
      OtherStepOwns(s, step, t);
    } else if step.angel in s.angels && s.angels[step.angel].pilgrim.next < |s.streams(s.angels[step.angel].token)| {
      GrantKeepsOwnFor(s, step.angel, t);
    }
  }

  lemma StepKeepsOwn(s: System, step: Step)
    requires InStep(s) && Known(s) && Own(s)
    ensures Own(Next(s, step))
  {
    forall t: Token ensures OwnFor(Next(s, step), t) {
      assert OwnFor(s, t);
      StepKeepsOwnFor(s, step, t);
    }
  }

  lemma {:induction false} RunKeepsOwn(streams: Token -> seq<Job>, steps: seq<Step>)
    ensures Own(Run(streams, steps))
  {
    if steps != [] {
      var before := steps[..|steps| - 1];
      RunKeepsOwn(streams, before);
      RunIsSound(streams, before);
      StepKeepsOwn(Run(streams, before), steps[|steps| - 1]);
    }
  }

  /** In every interleaving the commands workers have answered themselves are, client by client, exactly the
      local ones among those decoded so far, once each and in stream order. */
  lemma WorkersAnswerTheirOwn(streams: Token -> seq<Job>, steps: seq<Step>, t: Token)
    ensures var s := Run(streams, steps);
            Mine(OwnReplied(s.outbox), t) == LocalOf(s.streams(t)[..Reach(s, t)]) && s.streams == streams
  {
    RunKeepsOwn(streams, steps);
    RunKeepsInv(streams, steps);
    assert OwnFor(Run(streams, steps), t);
  }

  /* ----- what the client is sent ----- */

  /** The decrees sent for a client's own answers, in the order sent. */
  function OwnAnswersTo(outbox: seq<Letter>, sent: seq<T.Decree>, t: Token): seq<T.Decree> {
    if outbox == [] || |sent| != |outbox| then []
    else
      var n := |outbox| - 1;
      var mine := outbox[n].OwnReply? && outbox[n].wish.token == t;
      OwnAnswersTo(outbox[..n], sent[..n], t) + if mine then [sent[n]] else []
  }

  /** The decree for one of them. */
  function Answered(mean: Heaven.Meaning, t: Token, jobs: seq<Job>): seq<T.Decree> {
    seq(|jobs|, k requires 0 <= k < |jobs| => T.Deliver(t, mean.own(jobs[k].id)))
  }

  lemma {:induction false} OwnAnswersMatch(mean: Heaven.Meaning, outbox: seq<Letter>, sent: seq<T.Decree>, t: Token)
    requires Clients.Matched(mean, outbox, sent)
    ensures OwnAnswersTo(outbox, sent, t) == Answered(mean, t, Mine(OwnReplied(outbox), t))
  {
    if outbox != [] {
      var n := |outbox| - 1;
      var d := outbox[n];
      assert Heaven.StandsFor(mean, d, sent[n]);
      assert forall i :: 0 <= i < n ==> Heaven.StandsFor(mean, outbox[i], sent[i]);
      OwnAnswersMatch(mean, outbox[..n], sent[..n], t);
      var own := OwnReplied(outbox[..n]);
      if d.OwnReply? {
        OneMoreWish(own, d.wish, t);
        AnsweredOn(mean, t, Mine(own, t), d.wish.job);
        assert Mine(own, t) + [] == Mine(own, t);
      } else {
        assert own + [] == own;
      }
      assert OwnAnswersTo(outbox[..n], sent[..n], t) + [] == OwnAnswersTo(outbox[..n], sent[..n], t);
    }
  }

  lemma AnsweredOn(mean: Heaven.Meaning, t: Token, jobs: seq<Job>, j: Job)
    ensures Answered(mean, t, jobs + [j]) == Answered(mean, t, jobs) + [T.Deliver(t, mean.own(j.id))]
  {
  }

  /** In every interleaving a client has been sent, for every local command decoded so far, the reply of its
      worker, in stream order. */
  lemma ClientsGetTheirOwnAnswers(mean: Heaven.Meaning, streams: Token -> seq<Job>, steps: seq<Step>,
                                  states: seq<Heaven.Whole>, t: Token)
    requires Heaven.Runs(mean, streams, steps, states)
    ensures var s := states[|steps|];
            var local := LocalOf(s.system.streams(t)[..Reach(s.system, t)]);
            s.system.streams == streams && OwnAnswersTo(s.system.outbox, s.sent, t) == Answered(mean, t, local)
  {
    var s := states[|steps|];
    Clients.RunsStayProper(mean, streams, steps, states);
    Heaven.RunsAreRuns(mean, streams, steps, states, |steps|);
    OwnAnswersMatch(mean, s.system.outbox, s.sent, t);
    assert steps[..|steps|] == steps;
    WorkersAnswerTheirOwn(streams, steps, t);
  }

  /* ----- no farewell overtakes them ----- */

  /** A client that has been told goodbye has no connection, and no answer of a worker comes behind that. */
  ghost predicate Parted(s: System) {
    && (forall t: Token :: Goodbye(t) in s.outbox ==> Gone(s, t))
    && (forall i :: 0 <= i < |s.outbox| && s.outbox[i].OwnReply? ==>
          Goodbye(s.outbox[i].wish.token) !in s.outbox[..i])
  }

  lemma StepSendsOne(s: System, step: Step)
    ensures s.outbox <= Next(s, step).outbox && |Next(s, step).outbox| <= |s.outbox| + 1
    ensures forall t: Token :: Goodbye(t) in Next(s, step).outbox && Goodbye(t) !in s.outbox ==> Drops(s, step, t)
    ensures var o, o' := s.outbox, Next(s, step).outbox;
            |o'| > |o| && o'[|o|].OwnReply? ==>
              step.GrantJob? && step.angel in s.angels && o'[|o|].wish.token == s.angels[step.angel].token
  {
  }

  lemma StepKeepsParted(s: System, step: Step)
    requires Inv(s) && Parted(s)
    ensures Parted(Next(s, step))
  {
    var s' := Next(s, step);
    StepSendsOne(s, step);
    forall t: Token | Goodbye(t) in s'.outbox ensures Gone(s', t) {
      if Goodbye(t) in s.outbox {
        GoneStaysGone(s, step, t);
      } else {
        DroppedIsGone(s, step, t);
      }
    }
    forall i | 0 <= i < |s'.outbox| && s'.outbox[i].OwnReply?
      ensures Goodbye(s'.outbox[i].wish.token) !in s'.outbox[..i]
    {
      if i < |s.outbox| {
        assert s'.outbox[..i] == s.outbox[..i];
      } else {
        assert s'.outbox[..i] == s.outbox;
        assert Holding(s, WithAngel(step.angel), s'.outbox[i].wish.token).Some?;
      }
    }
  }

  lemma RunKeepsParted(streams: Token -> seq<Job>, steps: seq<Step>)
    ensures Parted(Run(streams, steps))
  {
    var p := iset s | Inv(s) && Parted(s);
    forall s, step | s in p ensures Next(s, step) in p {
      StepKeepsInv(s, step);
      StepKeepsParted(s, step);
    }
    RunKeepsInv(streams, []);
    assert steps[..0] == [];
    RunsStayIn(p, streams, steps, 0);
  }

  /** In every interleaving an answer a worker gives itself finds its client's socket: unlike an answer of the
      Temple thread it is never overtaken by the client's farewell. */
  lemma OwnAnswersAreWritten(mean: Heaven.Meaning, streams: Token -> seq<Job>, steps: seq<Step>,
                             states: seq<Heaven.Whole>, fates: Token -> seq<E.Fate>, i: nat)
    requires Heaven.Runs(mean, streams, steps, states)
    requires i < |states[|steps|].system.outbox| && states[|steps|].system.outbox[i].OwnReply?
    ensures var s := states[|steps|];
            var w := s.system.outbox[i].wish;
            && i < |s.sent| && s.sent[i] == T.Deliver(w.token, mean.own(w.job.id))
            && w.token in E.ObeyAll(fates, s.sent[..i])
  {
    var s := states[|steps|];
    var outbox := s.system.outbox;
    var t := outbox[i].wish.token;
    Clients.RunsStayProper(mean, streams, steps, states);
    Heaven.RunsAreRuns(mean, streams, steps, states, |steps|);
    assert steps[..|steps|] == steps;
    RunKeepsParted(streams, steps);
    assert Heaven.StandsFor(mean, outbox[i], s.sent[i]);
    MatchedPrefix(mean, outbox, s.sent, i);
    Clients.MatchedEnds(mean, outbox[..i], s.sent[..i], t);
    E.WrittenUnlessFarewell(fates, s.sent, i);
  }

  lemma MatchedPrefix(mean: Heaven.Meaning, outbox: seq<Letter>, sent: seq<T.Decree>, n: nat)
    requires Clients.Matched(mean, outbox, sent) && n <= |sent|
    ensures Clients.Matched(mean, outbox[..n], sent[..n])
  {
    forall i | 0 <= i < n ensures Heaven.StandsFor(mean, outbox[..n][i], sent[..n][i]) {
      assert Heaven.StandsFor(mean, outbox[i], sent[i]);
    }
  }

  /* ----- the two kinds of answers together ----- */

  /** All commands answered, by either, in the order the answers are sent. */
  function AllReplied(ds: seq<Letter>): seq<Wish> {
    if ds == [] then []
    else
      var d := ds[|ds| - 1];
      AllReplied(ds[..|ds| - 1]) + if d.Reply? || d.OwnReply? then [d.wish] else []
  }

  lemma OneMoreReplied(ds: seq<Letter>, d: Letter)
    ensures AllReplied(ds + [d]) == AllReplied(ds) + if d.Reply? || d.OwnReply? then [d.wish] else []
  {
  }

  /** No command a worker answers itself comes behind one for the Temple thread. */
  ghost predicate LocalFirst(jobs: seq<Job>) {
    forall i, j :: 0 <= i < j < |jobs| && jobs[i].Routed? ==> !jobs[j].Local?
  }

  lemma LocalFirstPrefix(jobs: seq<Job>, n: nat)
    requires LocalFirst(jobs) && n <= |jobs|
    ensures LocalFirst(jobs[..n])
  {
  }

  lemma {:induction false} NoneRouted(jobs: seq<Job>)
    requires forall i :: 0 <= i < |jobs| ==> jobs[i].Local?
    ensures RoutedOf(jobs) == [] && LocalOf(jobs) == jobs
  {
    if jobs != [] {
      var n := |jobs| - 1;
      NoneRouted(jobs[..n]);
      assert jobs == jobs[..n] + [jobs[n]];
    }
  }

  lemma {:induction false} LocalThenRouted(jobs: seq<Job>)
    requires LocalFirst(jobs)
    ensures LocalOf(jobs) + RoutedOf(jobs) == jobs
  {
    if jobs != [] {
      var n := |jobs| - 1;
      LocalFirstPrefix(jobs, n);
      LocalThenRouted(jobs[..n]);
      assert jobs == jobs[..n] + [jobs[n]];
      if jobs[n].Local? {
        NoneRouted(jobs[..n]);
      }
    }
  }

  /** The worker's answers to a client come before the Temple thread's. */
  ghost predicate OwnFirst(s: System, t: Token) {
    Mine(AllReplied(s.outbox), t) == Mine(OwnReplied(s.outbox), t) + Mine(Replied(s.outbox), t)
  }

  lemma OneMoreServedKeeps(all: seq<Wish>, own: seq<Wish>, served: seq<Wish>, w: Wish, t: Token)
    requires Mine(all, t) == Mine(own, t) + Mine(served, t)
    ensures Mine(all + [w], t) == Mine(own, t) + Mine(served + [w], t)
  {
    OneMoreWish(all, w, t);
    OneMoreWish(served, w, t);
  }

  lemma OneMoreOwnKeeps(all: seq<Wish>, own: seq<Wish>, served: seq<Wish>, w: Wish, t: Token)
    requires Mine(all, t) == Mine(own, t) + Mine(served, t)
    requires w.token == t ==> Mine(served, t) == []
    ensures Mine(all + [w], t) == Mine(own + [w], t) + Mine(served, t)
  {
    OneMoreWish(all, w, t);
    OneMoreWish(own, w, t);
  }

  /** One more letter. An answer of a worker keeps the order only if the Temple thread has sent none. */
  lemma LetterKeepsOwnFirst(ds: seq<Letter>, d: Letter, t: Token)
    requires Mine(AllReplied(ds), t) == Mine(OwnReplied(ds), t) + Mine(Replied(ds), t)
    requires d.OwnReply? && d.wish.token == t ==> Mine(Replied(ds), t) == []
    ensures var ds' := ds + [d];
            Mine(AllReplied(ds'), t) == Mine(OwnReplied(ds'), t) + Mine(Replied(ds'), t)
  {
    var all, own, served := AllReplied(ds), OwnReplied(ds), Replied(ds);
    OneMoreReplied(ds, d);
    OneMoreOwn(ds, d);
    OneMoreDecree(ds, d);
    assert all + [] == all && own + [] == own && served + [] == served;
    match d {
      case Reply(w) => OneMoreServedKeeps(all, own, served, w, t);
      case OwnReply(w) => OneMoreOwnKeeps(all, own, served, w, t);
      case _ =>
    }
  }

  /** A command a worker answers itself finds nothing of its client answered by the Temple thread, if no routed
      command precedes it. */
  lemma NothingServedYet(s: System, w: nat)
    requires Inv(s) && w in s.angels
    requires var song := s.angels[w];
             var jobs := s.streams(song.token);
             LocalFirst(jobs) && song.pilgrim.next < |jobs| && jobs[song.pilgrim.next].Local?
    ensures Mine(Replied(s.outbox), s.angels[w].token) == []
  {
    var t, n := s.angels[w].token, s.angels[w].pilgrim.next;
    GrantGoesOn(s, w);
    assert OrderedFor(s, t);
    MineAppend(s.served, s.wishes, t);
    NoneRouted(s.streams(t)[..n]);
  }

  lemma StepKeepsOwnFirst(s: System, step: Step, t: Token)
    requires Inv(s) && LocalFirst(s.streams(t)) && OwnFirst(s, t)
    ensures OwnFirst(Next(s, step), t)
  {
    var o, o' := s.outbox, Next(s, step).outbox;
    StepSendsOne(s, step);
    if o' != o {
      assert o' == o + [o'[|o|]];
      if o'[|o|].OwnReply? && o'[|o|].wish.token == t {
        NothingServedYet(s, step.angel);
      }
      LetterKeepsOwnFirst(o, o'[|o|], t);
    }
  }

  lemma RunKeepsOwnFirst(streams: Token -> seq<Job>, steps: seq<Step>, t: Token)
    requires LocalFirst(streams(t))
    ensures OwnFirst(Run(streams, steps), t)
  {
    var p := iset s | Inv(s) && s.streams == streams && OwnFirst(s, t);
    forall s, step | s in p ensures Next(s, step) in p {
      StepKeepsInv(s, step);
      StepKeepsOwnFirst(s, step, t);
    }
    RunKeepsInv(streams, []);
    assert steps[..0] == [];
    RunsStayIn(p, streams, steps, 0);
  }

  lemma LocalThenSomeRouted(jobs: seq<Job>, n: nat, served: seq<Job>)
    requires LocalFirst(jobs) && n <= |jobs| && served <= RoutedOf(jobs[..n])
    ensures LocalOf(jobs[..n]) + served <= jobs
  {
    LocalFirstPrefix(jobs, n);
    LocalThenRouted(jobs[..n]);
  }

  /** Answers in stream order, in every interleaving. */
  lemma LocalFirstKeepsOrder(streams: Token -> seq<Job>, steps: seq<Step>, t: Token)
    requires LocalFirst(streams(t))
    ensures Mine(AllReplied(Run(streams, steps).outbox), t) <= streams(t)
  {
    var s := Run(streams, steps);
    RunKeepsOwnFirst(streams, steps, t);
    WorkersAnswerTheirOwn(streams, steps, t);
    RequestsKeepTheirOrder(streams, steps, t);
    LocalThenSomeRouted(streams(t), Reach(s, t), Mine(s.served, t));
  }

  /* ----- an answer that comes too early ----- */

  /** n clients have been accepted, and nothing else has happened. */
  ghost predicate Accepted(s: System, n: nat) {
    && s.counter == n + 1 && (forall t :: 1 <= t <= n ==> t in s.ingress && s.ingress[t] == Pilgrim(0))
    && s.choir == [] && s.angels == map[] && s.fallen == {}
    && s.served == [] && Replied(s.outbox) == []
  }

  lemma OneMoreAccepted(s: System, n: nat)
    requires Accepted(s, n)
    ensures Accepted(Next(s, Accept), n + 1) && Next(s, Accept).streams == s.streams
  {
    OneMoreDecree(s.outbox, Welcome(s.counter));
  }

  lemma {:induction false} ManyAccepted(streams: Token -> seq<Job>, n: nat)
    ensures Accepted(Run(streams, Times(n, Accept)), n) && Run(streams, Times(n, Accept)).streams == streams
  {
    if n > 0 {
      ManyAccepted(streams, n - 1);
      TimesOn(n - 1, Accept);
      OneMoreStep(Start(streams), Times(n - 1, Accept), Accept);
      OneMoreAccepted(Run(streams, Times(n - 1, Accept)), n - 1);
    }
  }

  /** A worker has client t's connection with m commands decoded, and the Temple thread has served nothing. */
  predicate Ahead(s: System, t: Token, m: nat) {
    0 in s.angels && s.angels[0] == Song(t, Pilgrim(m)) && s.served == [] && Replied(s.outbox) == []
  }

  /** A worker gets the last client's connection. */
  lemma LastDispatched(streams: Token -> seq<Job>, t: Token) returns (steps: seq<Step>)
    requires t >= 1
    ensures Ahead(Run(streams, steps), t, 0) && Run(streams, steps).streams == streams
  {
    var many := Times(t, Accept);
    ManyAccepted(streams, t);
    OneMoreStep(Start(streams), many, Dispatch(t));
    OneMoreStep(Start(streams), many + [Dispatch(t)], BeginSong(0));
    steps := many + [Dispatch(t)] + [BeginSong(0)];
    DispatchedFirst(Run(streams, many), t);
  }

  lemma DispatchedFirst(s: System, t: Token)
    requires t in s.ingress && s.ingress[t] == Pilgrim(0) && s.choir == [] && s.angels == map[] && s.fallen == {}
    requires s.served == [] && Replied(s.outbox) == []
    ensures var s' := Next(Next(s, Dispatch(t)), BeginSong(0)); Ahead(s', t, 0) && s'.streams == s.streams
  {
  }

  lemma {:induction false} ManyGranted(s: System, t: Token, k: nat) returns (steps: seq<Step>)
    requires Ahead(s, t, 0) && k <= |s.streams(t)|
    ensures Ahead(RunFrom(s, steps), t, k) && RunFrom(s, steps).streams == s.streams
    decreases k
  {
    if k == 0 {
      steps := [];
    } else {
      var most := ManyGranted(s, t, k - 1);
      GrantStaysAhead(RunFrom(s, most), t, k - 1);
      OneMoreStep(s, most, GrantJob(0));
      steps := most + [GrantJob(0)];
    }
  }

  lemma GrantStaysAhead(s: System, t: Token, m: nat)
    requires Ahead(s, t, m) && m < |s.streams(t)|
    ensures Ahead(Next(s, GrantJob(0)), t, m + 1) && Next(s, GrantJob(0)).streams == s.streams
  {
    OneMoreDecree(s.outbox, OwnReply(Wish(t, s.streams(t)[m])));
  }

  lemma {:induction false} OnlyOwn(ds: seq<Letter>)
    requires Replied(ds) == []
    ensures AllReplied(ds) == OwnReplied(ds)
  {
    if ds != [] {
      OnlyOwn(ds[..|ds| - 1]);
    }
  }

  lemma {:induction false} LocalPrefix(jobs: seq<Job>, i: nat, j: nat)
    requires i <= j <= |jobs|
    ensures |LocalOf(jobs[..i])| <= |LocalOf(jobs[..j])|
    decreases j
  {
    if i < j {
      LocalPrefix(jobs, i, j - 1);
      OneMoreLocal(jobs, j - 1);
    }
  }

  lemma {:induction false} FirstRouted(jobs: seq<Job>, j: nat) returns (i: nat)
    requires j < |jobs| && jobs[j].Routed?
    ensures i <= j && jobs[i].Routed? && forall k :: 0 <= k < i ==> jobs[k].Local?
  {
    if k :| 0 <= k < j && jobs[k].Routed? {
      i := FirstRouted(jobs, k);
    } else {
      i := j;
    }
  }

  /** The local commands up to one behind a routed one do not begin the stream. */
  lemma OutOfOrder(jobs: seq<Job>, i: nat, j: nat)
    requires i < j < |jobs| && jobs[i].Routed? && jobs[j].Local?
    ensures !(LocalOf(jobs[..j + 1]) <= jobs)
  {
    var first := FirstRouted(jobs, i);
    NoneRouted(jobs[..first]);
    LocalPrefix(jobs, first, j);
    OneMoreLocal(jobs, j);
    var own := LocalOf(jobs[..j + 1]);
    LocalOrRouted(jobs[..j + 1]);
    assert own[first] in own;
  }

  lemma RunsAhead(streams: Token -> seq<Job>, t: Token, k: nat) returns (steps: seq<Step>)
    requires t >= 1 && k <= |streams(t)|
    ensures Ahead(Run(streams, steps), t, k)
  {
    var before := LastDispatched(streams, t);
    var grants := ManyGranted(Run(streams, before), t, k);
    RunsJoin(Start(streams), before, grants);
    steps := before + grants;
  }

  lemma AheadIsLocal(streams: Token -> seq<Job>, steps: seq<Step>, t: Token, k: nat)
    requires k <= |streams(t)| && Ahead(Run(streams, steps), t, k)
    ensures Mine(AllReplied(Run(streams, steps).outbox), t) == LocalOf(streams(t)[..k])
  {
    var s := Run(streams, steps);
    RunIsSound(streams, steps);
    assert Holding(s, WithAngel(0), t).Some?;
    WorkersAnswerTheirOwn(streams, steps, t);
    OnlyOwn(s.outbox);
  }

  /** Such a client may be answered out of turn: the worker's answer overtakes the Temple thread's. */
  lemma AnsweredTooEarly(streams: Token -> seq<Job>, t: Token, i: nat, j: nat) returns (steps: seq<Step>)
    requires t >= 1 && i < j < |streams(t)| && streams(t)[i].Routed? && streams(t)[j].Local?
    ensures !(Mine(AllReplied(Run(streams, steps).outbox), t) <= streams(t))
  {
    steps := RunsAhead(streams, t, j + 1);
    AheadIsLocal(streams, steps, t, j + 1);
    OutOfOrder(streams(t), i, j);
  }

  /** Pipelined commands are answered in order in every interleaving if and only if none that a worker answers
      itself comes behind one for the Temple thread. A client that sends GET k and PING at once may read the
      reply to its PING first. */
  lemma AnswersKeepOrderIff(streams: Token -> seq<Job>, t: Token)
    requires t >= 1
    ensures (forall steps: seq<Step> :: Mine(AllReplied(Run(streams, steps).outbox), t) <= streams(t)) <==>
            LocalFirst(streams(t))
  {
    if LocalFirst(streams(t)) {
      forall steps: seq<Step> ensures Mine(AllReplied(Run(streams, steps).outbox), t) <= streams(t) {
        LocalFirstKeepsOrder(streams, steps, t);
      }
    } else {
      var i, j :| 0 <= i < j < |streams(t)| && streams(t)[i].Routed? && streams(t)[j].Local?;
      var steps := AnsweredTooEarly(streams, t, i, j);
    }
  }
}
