/** What the workers sing: the hand-off machine with a decoding session behind every connection, so that the
    commands passed on are those wish hands over. */
module Songs {
  import opened Bytes
  import D = Decoder
  import S = Sessions
  import L = SessionLaws
  import H = Handoff

  /** The jobs a run of commands stands for. */
  function JobsOf(jobOf: D.Command -> H.Job, commands: seq<D.Command>): seq<H.Job> {
    seq(|commands|, i requires 0 <= i < |commands| => jobOf(commands[i]))
  }

  /** The jobs in each client's byte stream, as the one-shot decoder reads it. */
  function StreamsOf(jobOf: D.Command -> H.Job, scripts: Token -> seq<S.Chunk>): Token -> seq<H.Job> {
    (t: Token) => JobsOf(jobOf, D.Decode(D.START, S.Pending(scripts(t))).granted)
  }

  /** The machine, and each accepted client's session as it was before its current call of wish. */
  datatype Played = Played(system: H.System, sessions: map<Token, S.Session>)

  /** The outcome of the call of wish that angel w is making, and the session it leaves. */
  ghost function Call(p: Played, w: nat): (S.Outcome, S.Session)
    requires w in p.system.angels && Ready(p, w)
  {
    S.Wish(p.sessions[p.system.angels[w].token])
  }

  ghost predicate Ready(p: Played, w: nat)
    requires w in p.system.angels
  {
    var t := p.system.angels[w].token;
    t in p.sessions && S.Valid(p.sessions[t])
  }

  /** All that the call hands over has been passed on. */
  ghost predicate Sung(p: Played, w: nat)
    requires w in p.system.angels && Ready(p, w)
  {
    p.system.angels[w].pilgrim.next == |Call(p, w).1.granted|
  }

  /** One step: an angel passes on what its call of wish hands over, and then ends as the call does. */
  ghost predicate Sings(scripts: Token -> seq<S.Chunk>, p: Played, step: H.Step, p': Played) {
    && p'.system == H.Next(p.system, step)
    && match step
       case Accept =>
         p'.sessions == p.sessions[p.system.counter := S.Open(scripts(p.system.counter))]
       case GrantJob(w) =>
         && p'.sessions == p.sessions
         && (w in p.system.angels ==>
               Ready(p, w) && p.system.angels[w].pilgrim.next < |Call(p, w).1.granted|)
       case EndSong(w) =>
         if w !in p.system.angels then p'.sessions == p.sessions
         else
           && Ready(p, w) && Sung(p, w) && Call(p, w).0.Fine?
           && p'.sessions == p.sessions[p.system.angels[w].token := Call(p, w).1]
       case FailSong(w) =>
         && p'.sessions == p.sessions
         && (w in p.system.angels ==>
               Ready(p, w) && Sung(p, w) && Call(p, w).0.Fail? && Call(p, w).0.sin != D.Panic)
       case PanicSong(w) =>
         && p'.sessions == p.sessions
         && (w in p.system.angels ==> Ready(p, w) && Sung(p, w) && Call(p, w).0 == S.Fail(D.Panic))
       case _ => p'.sessions == p.sessions
  }

  ghost predicate Concert(jobOf: D.Command -> H.Job, scripts: Token -> seq<S.Chunk>, steps: seq<H.Step>,
                       states: seq<Played>) {
    && |states| == |steps| + 1
    && states[0] == Played(H.Start(StreamsOf(jobOf, scripts)), map[])
    && forall i :: 0 <= i < |steps| ==> Sings(scripts, states[i], steps[i], states[i + 1])
  }

  /** The sessions between two calls on a stream. */
  ghost function Between(stream: Bytes): iset<S.Session> {
    iset s | L.Faithful(s) && L.Of(s, stream) && L.Justified(S.Fine, s)
  }

  /** A call goes on from what has been handed over, stays with the one-shot decoder, and leaves a session for
      the next if it returns well. */
  lemma CallGoesOn(s: S.Session, stream: Bytes)
    requires s in Between(stream)
    ensures S.Valid(s) && |s.granted| <= |S.Wish(s).1.granted|
    ensures S.Wish(s).1.granted <= D.Decode(D.START, stream).granted
    ensures S.Wish(s).0.Fine? ==> S.Wish(s).1 in Between(stream)
  {
    L.WishKeeps(s, stream);
    GrantsGrow(s);
    DecodedAhead(S.Wish(s).1, stream);
  }

  lemma DecodedAhead(s: S.Session, stream: Bytes)
    requires L.Faithful(s) && L.Of(s, stream)
    ensures s.granted <= D.Decode(D.START, stream).granted
  {
    L.MoreBytes(s, S.Pending(s.script));
  }

  lemma GrantsGrow(s: S.Session)
    requires S.Valid(s)
    ensures |s.granted| <= |S.Wish(s).1.granted|
  {
    S.FillIsSound(s);
    if S.FillOnce(s).Filled? {
      LoopGrantsGrow(S.FillOnce(s).session);
    }
  }

  lemma {:induction false} LoopGrantsGrow(s: S.Session)
    requires S.Valid(s)
    ensures |s.granted| <= |S.Loop(s).1.granted|
    decreases S.Work(s)
  {
    S.RoundIsSound(s);
    RoundGrantsGrow(s);
    if S.RoundOf(s).Again? {
      LoopGrantsGrow(S.RoundOf(s).session);
    }
  }

  lemma RoundGrantsGrow(s: S.Session)
    requires S.Valid(s)
    ensures |s.granted| <= |S.RoundOf(s).session.granted|
  {
    if s.window != [] {
      S.FillIsSound(s);
      if D.Next(s.reading, s.window).Took? {
        S.FillIsSound(S.Advance(s, D.Next(s.reading, s.window)));
      }
    }
  }

  /** Every connection stands where its session does: on what it has handed over, or, with an angel, somewhere
      within the current call. */
  ghost predicate InTune(scripts: Token -> seq<S.Chunk>, p: Played) {
    forall t: Token, a: H.Spot :: H.Holding(p.system, a, t).Some? ==> InTuneAt(scripts, p, t, a)
  }

  ghost predicate InTuneAt(scripts: Token -> seq<S.Chunk>, p: Played, t: Token, a: H.Spot)
    requires H.Holding(p.system, a, t).Some?
  {
    && t in p.sessions && p.sessions[t] in Between(S.Pending(scripts(t))) && S.Valid(p.sessions[t])
    && var next := H.Holding(p.system, a, t).value.next;
       if a.WithAngel? then |p.sessions[t].granted| <= next <= |S.Wish(p.sessions[t]).1.granted|
       else next == |p.sessions[t].granted|
  }

  /** An angel's own step, for its client. */
  lemma AngelKeepsTune(scripts: Token -> seq<S.Chunk>, p: Played, step: H.Step, p': Played, w: nat, a: H.Spot)
    requires step == H.GrantJob(w) || step == H.EndSong(w)
    requires w in p.system.angels && Sings(scripts, p, step, p')
    requires var t := p.system.angels[w].token;
             && InTuneAt(scripts, p, t, H.WithAngel(w)) && H.Exclusive(p.system)
             && H.Holding(p'.system, a, t).Some?
    ensures InTuneAt(scripts, p', p.system.angels[w].token, a)
  {
    var t := p.system.angels[w].token;
    CallGoesOn(p.sessions[t], S.Pending(scripts(t)));
    H.StepMoves(p.system, step, t, a);
    assert H.Before(p.system, step, t, a) == H.WithAngel(w);
  }

  /** A step that is not this client's angel's. */
  predicate OfOthers(s: H.System, step: H.Step, t: Token) {
    && !((step.Accept? || step.AcceptUnheard?) && t == s.counter)
    && (step.GrantJob? || step.EndSong? ==> step.angel in s.angels ==> s.angels[step.angel].token != t)
  }

  lemma OthersKeepSession(scripts: Token -> seq<S.Chunk>, p: Played, step: H.Step, p': Played, t: Token)
    requires Sings(scripts, p, step, p') && OfOthers(p.system, step, t) && t in p.sessions
    ensures t in p'.sessions && p'.sessions[t] == p.sessions[t]
  {
  }

  /** It moves the connection at most from the choir to an angel, or not to one at all. */
  lemma OthersKeepPlace(s: H.System, step: H.Step, t: Token, a: H.Spot)
    requires OfOthers(s, step, t) && H.Holding(H.Next(s, step), a, t).Some?
    ensures var was := H.Before(s, step, t, a);
            && H.Holding(s, was, t) == H.Holding(H.Next(s, step), a, t)
            && (was.WithAngel? ==> a.WithAngel?)
  {
    H.StepMoves(s, step, t, a);
  }

  lemma OthersKeepTune(scripts: Token -> seq<S.Chunk>, p: Played, step: H.Step, p': Played, t: Token, a: H.Spot)
    requires Sings(scripts, p, step, p') && OfOthers(p.system, step, t)
    requires H.Holding(H.Next(p.system, step), a, t).Some?
    requires H.Holding(p.system, H.Before(p.system, step, t, a), t).Some?
    requires InTuneAt(scripts, p, t, H.Before(p.system, step, t, a))
    ensures InTuneAt(scripts, p', t, a)
  {
    OthersKeepSession(scripts, p, step, p', t);
    OthersKeepPlace(p.system, step, t, a);
    CallGoesOn(p.sessions[t], S.Pending(scripts(t)));
  }

  lemma StepKeepsTune(scripts: Token -> seq<S.Chunk>, p: Played, step: H.Step, p': Played)
    requires H.InStep(p.system) && H.Known(p.system) && H.Exclusive(p.system)
    requires InTune(scripts, p) && Sings(scripts, p, step, p')
    ensures InTune(scripts, p')
  {
    forall t: Token, a: H.Spot | H.Holding(p'.system, a, t).Some? ensures InTuneAt(scripts, p', t, a) {
      if (step.Accept? || step.AcceptUnheard?) && t == p.system.counter {
        H.NewcomerIsInIngress(p.system, step, a);
        L.OpenIsFaithful(scripts(t));
      } else {
        H.StepMoves(p.system, step, t, a);
        var was := H.Before(p.system, step, t, a);
        assert InTuneAt(scripts, p, t, was);
        if (step.GrantJob? || step.EndSong?) && step.angel in p.system.angels
           && p.system.angels[step.angel].token == t {
          assert H.Holding(p.system, H.WithAngel(step.angel), t).Some?;
          AngelKeepsTune(scripts, p, step, p', step.angel, a);
        } else {
          OthersKeepTune(scripts, p, step, p', t, a);
        }
      }
    }
  }

  ghost predicate Sound(scripts: Token -> seq<S.Chunk>, p: Played) {
    H.Inv(p.system) && InTune(scripts, p)
  }

  lemma {:induction false} ConcertStaysSound(jobOf: D.Command -> H.Job, scripts: Token -> seq<S.Chunk>,
                                         steps: seq<H.Step>, states: seq<Played>, i: nat)
    requires Concert(jobOf, scripts, steps, states) && i <= |steps|
    ensures Sound(scripts, states[i]) && states[i].system.streams == StreamsOf(jobOf, scripts)
    decreases i
  {
    if i == 0 {
      H.RunKeepsInv(StreamsOf(jobOf, scripts), []);
    } else {
      ConcertStaysSound(jobOf, scripts, steps, states, i - 1);
      var p, step := states[i - 1], steps[i - 1];
      assert Sings(scripts, p, step, states[i]);
      H.StepKeepsInv(p.system, step);
      StepKeepsTune(scripts, p, step, states[i]);
    }
  }

  /** In every interleaving, however the sockets split the streams, a connection has passed on exactly the
      commands its session has handed over; and these are the first of its client's stream. */
  lemma PassedOnIsHandedOver(jobOf: D.Command -> H.Job, scripts: Token -> seq<S.Chunk>, steps: seq<H.Step>,
                             states: seq<Played>, t: Token, a: H.Spot)
    requires Concert(jobOf, scripts, steps, states)
    requires H.Holding(states[|steps|].system, a, t).Some?
    ensures var p, n := states[|steps|], H.Holding(states[|steps|].system, a, t).value.next;
            && t in p.sessions && S.Valid(p.sessions[t])
            && var handed := if a.WithAngel? then S.Wish(p.sessions[t]).1.granted else p.sessions[t].granted;
               && n <= |handed| && (n < |handed| ==> a.WithAngel?)
               && n <= |StreamsOf(jobOf, scripts)(t)|
               && JobsOf(jobOf, handed[..n]) == StreamsOf(jobOf, scripts)(t)[..n]
  {
    ConcertStaysSound(jobOf, scripts, steps, states, |steps|);
    var p := states[|steps|];
    assert InTuneAt(scripts, p, t, a);
    HandedOverAhead(p.sessions[t], S.Pending(scripts(t)));
    var handed := if a.WithAngel? then S.Wish(p.sessions[t]).1.granted else p.sessions[t].granted;
    JobsOfPrefix(jobOf, handed, D.Decode(D.START, S.Pending(scripts(t))).granted, H.Holding(p.system, a, t).value.next);
  }

  lemma HandedOverAhead(s: S.Session, stream: Bytes)
    requires s in Between(stream) && S.Valid(s)
    ensures s.granted <= D.Decode(D.START, stream).granted
    ensures S.Wish(s).1.granted <= D.Decode(D.START, stream).granted
  {
    CallGoesOn(s, stream);
    DecodedAhead(s, stream);
  }

  lemma JobsOfPrefix(jobOf: D.Command -> H.Job, some: seq<D.Command>, all: seq<D.Command>, n: nat)
    requires some <= all && n <= |some|
    ensures n <= |JobsOf(jobOf, all)| && JobsOf(jobOf, some[..n]) == JobsOf(jobOf, all)[..n]
  {
  }
}
