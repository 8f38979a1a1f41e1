/** Nothing ever gets stuck: from every reachable state in which a client still has its connection the
    threads can go on until all its commands are decoded, everything asked is served and written, and the
    connection waits in the event loop again. */
module Progress {
  import opened Bytes
  import opened Handoff
  import opened OwnAnswers

  lemma StepsFirst(s: System, step: Step, rest: seq<Step>)
    ensures RunFrom(s, [step] + rest) == RunFrom(Next(s, step), rest)
  {
    RunsJoin(s, [step], rest);
    assert RunFrom(s, [step]) == Next(s, step);
  }

  /** Going on from s has led to s', where client t's connection is at the given place, and the same streams
      are being decoded, no less far; the Temple thread has not been ended on the way. */
  ghost predicate Brings(s: System, steps: seq<Step>, spot: Spot, t: Token) {
    var s' := RunFrom(s, steps);
    && Inv(s') && Holding(s', spot, t).Some? && s'.streams == s.streams && s'.ended == s.ended
    && Reach(s, t) <= Reach(s', t)
  }

  lemma BringsByStep(s: System, step: Step, rest: seq<Step>, t: Token, spot: Spot)
    requires Brings(Next(s, step), rest, spot, t)
    requires var s' := Next(s, step); s'.streams == s.streams && s'.ended == s.ended && s'.reached == s.reached
    ensures Brings(s, [step] + rest, spot, t)
  {
    StepsFirst(s, step, rest);
  }

  lemma BringsOn(s: System, a: seq<Step>, b: seq<Step>, t: Token, here: Spot, there: Spot)
    requires Brings(s, a, here, t) && Brings(RunFrom(s, a), b, there, t)
    ensures Brings(s, a + b, there, t)
  {
    RunsJoin(s, a, b);
  }

  /** From the return channel to the loop. */
  lemma {:induction false} TakeBack(s: System, t: Token, i: nat) returns (steps: seq<Step>)
    requires Inv(s) && Holding(s, InReturn(i), t).Some?
    ensures Brings(s, steps, InIngress, t)
    decreases i
  {
    StepKeepsInv(s, TakeReturned);
    StepKeepsConnection(s, TakeReturned, t, InReturn(i));
    if i == 0 {
      steps := [TakeReturned];
      StepsFirst(s, TakeReturned, []);
    } else {
      var rest := TakeBack(Next(s, TakeReturned), t, i - 1);
      steps := [TakeReturned] + rest;
      BringsByStep(s, TakeReturned, rest, t, InIngress);
    }
  }

  /** A worker that is neither busy nor fallen. */
  lemma {:induction false} FreeAngel(busy: set<nat>) returns (w: nat)
    ensures w !in busy
  {
    w := Beyond(busy);
  }

  lemma {:induction false} Beyond(busy: set<nat>) returns (w: nat)
    ensures forall b :: b in busy ==> b < w
    decreases busy
  {
    if busy == {} {
      w := 0;
    } else {
      var b :| b in busy;
      var w1 := Beyond(busy - {b});
      w := if b < w1 then w1 else b + 1;
      assert forall b' :: b' in busy ==> b' == b || b' in busy - {b};
    }
  }

  /** From the queue for the workers to a worker. */
  lemma {:induction false} BeginTurn(s: System, t: Token, i: nat) returns (steps: seq<Step>, w: nat)
    requires Inv(s) && Holding(s, InChoir(i), t).Some?
    ensures Brings(s, steps, WithAngel(w), t)
    decreases i
  {
    var free := FreeAngel(s.angels.Keys + s.fallen);
    StepKeepsInv(s, BeginSong(free));
    StepKeepsConnection(s, BeginSong(free), t, InChoir(i));
    if i == 0 {
      steps, w := [BeginSong(free)], free;
      StepsFirst(s, BeginSong(free), []);
    } else {
      var rest;
      rest, w := BeginTurn(Next(s, BeginSong(free)), t, i - 1);
      steps := [BeginSong(free)] + rest;
      BringsByStep(s, BeginSong(free), rest, t, WithAngel(w));
    }
  }

  /** From wherever it is to a worker. */
  lemma ToAngel(s: System, t: Token, spot: Spot) returns (steps: seq<Step>, w: nat)
    requires Inv(s) && Holding(s, spot, t).Some?
    ensures Brings(s, steps, WithAngel(w), t)
  {
    match spot {
      case WithAngel(w') =>
        steps, w := [], w';
      case InChoir(i) =>
        steps, w := BeginTurn(s, t, i);
      case InIngress =>
        steps, w := FromLoop(s, t);
      case InReturn(i) =>
        var a := TakeBack(s, t, i);
        var b;
        b, w := FromLoop(RunFrom(s, a), t);
        steps := a + b;
        BringsOn(s, a, b, t, InIngress, WithAngel(w));
    }
  }

  lemma FromLoop(s: System, t: Token) returns (steps: seq<Step>, w: nat)
    requires Inv(s) && Holding(s, InIngress, t).Some?
    ensures Brings(s, steps, WithAngel(w), t)
  {
    var step := Dispatch(t);
    StepKeepsInv(s, step);
    StepKeepsConnection(s, step, t, InIngress);
    var rest;
    rest, w := BeginTurn(Next(s, step), t, |s.choir|);
    steps := [step] + rest;
    BringsByStep(s, step, rest, t, WithAngel(w));
  }

  /** Decoding to the end of the stream. */
  lemma {:induction false} DecodeAll(s: System, t: Token, w: nat) returns (steps: seq<Step>)
    requires Inv(s) && Holding(s, WithAngel(w), t).Some?
    ensures Brings(s, steps, WithAngel(w), t) && Reach(RunFrom(s, steps), t) == |s.streams(t)|
    decreases |s.streams(t)| - Reach(s, t)
  {
    var step := GrantJob(w);
    assert Holding(s, WithAngel(w), t).value.next == s.reached[t] <= |s.streams(t)|;
    if Reach(s, t) == |s.streams(t)| {
      steps := [];
    } else {
      var s1 := Next(s, step);
      StepKeepsInv(s, step);
      StepKeepsConnection(s, step, t, WithAngel(w));
      assert Reach(s1, t) == Reach(s, t) + 1;
      var rest := DecodeAll(s1, t, w);
      steps := [step] + rest;
      StepsFirst(s, step, rest);
    }
  }

  /** Back to the loop. */
  lemma GiveBack(s: System, t: Token, w: nat) returns (steps: seq<Step>)
    requires Inv(s) && Holding(s, WithAngel(w), t).Some?
    ensures Brings(s, steps, InIngress, t)
  {
    var step := EndSong(w);
    StepKeepsInv(s, step);
    StepKeepsConnection(s, step, t, WithAngel(w));
    var rest := TakeBack(Next(s, step), t, |s.returned|);
    steps := [step] + rest;
    BringsByStep(s, step, rest, t, InIngress);
  }

  /** Serving everything asked. */
  lemma {:induction false} ServeAll(s: System, t: Token, spot: Spot) returns (steps: seq<Step>)
    requires Inv(s) && !s.ended && Holding(s, spot, t).Some?
    ensures Brings(s, steps, spot, t) && RunFrom(s, steps).wishes == []
    decreases |s.wishes|
  {
    if s.wishes == [] {
      steps := [];
    } else {
      StepKeepsInv(s, ServeWish);
      StepKeepsConnection(s, ServeWish, t, spot);
      var rest := ServeAll(Next(s, ServeWish), t, spot);
      steps := [ServeWish] + rest;
      StepsFirst(s, ServeWish, rest);
    }
  }

  /** Writing everything sent. */
  lemma {:induction false} WriteAll(s: System, t: Token, spot: Spot) returns (steps: seq<Step>)
    requires Inv(s) && s.taken <= |s.outbox| && Holding(s, spot, t).Some?
    ensures Brings(s, steps, spot, t)
    ensures var s' := RunFrom(s, steps); s'.wishes == s.wishes && s'.taken == |s'.outbox|
    decreases |s.outbox| - s.taken
  {
    if s.taken == |s.outbox| {
      steps := [];
    } else {
      var step := ServeDecree(false);
      StepKeepsInv(s, step);
      StepKeepsConnection(s, step, t, spot);
      var rest := WriteAll(Next(s, step), t, spot);
      steps := [step] + rest;
      StepsFirst(s, step, rest);
    }
  }

  lemma StepTakesSent(s: System, step: Step)
    requires s.taken <= |s.outbox|
    ensures Next(s, step).taken <= |Next(s, step).outbox|
  {
  }

  lemma {:induction false} TakesWhatIsSent(streams: Token -> seq<Job>, steps: seq<Step>)
    ensures Run(streams, steps).taken <= |Run(streams, steps).outbox|
  {
    if steps != [] {
      var before := steps[..|steps| - 1];
      TakesWhatIsSent(streams, before);
      StepTakesSent(Run(streams, before), steps[|steps| - 1]);
    }
  }

  /** To the worker, through the stream, back to the loop. */
  lemma DecodeAndReturn(s: System, t: Token, spot: Spot) returns (steps: seq<Step>)
    requires Inv(s) && Holding(s, spot, t).Some?
    ensures Brings(s, steps, InIngress, t) && Reach(RunFrom(s, steps), t) == |s.streams(t)|
  {
    var a, w := ToAngel(s, t, spot);
    var s1 := RunFrom(s, a);
    var b := DecodeAll(s1, t, w);
    var s2 := RunFrom(s1, b);
    var c := GiveBack(s2, t, w);
    BringsOn(s1, b, c, t, WithAngel(w), InIngress);
    BringsOn(s, a, b + c, t, WithAngel(w), InIngress);
    RunsJoin(s1, b, c);
    RunsJoin(s, a, b + c);
    steps := a + (b + c);
  }

  /** Whatever has happened so far, as long as the Temple thread is up and a client's connection has not been
      given up, the threads can go on so that the client has every command of its stream answered, everything
      sent has been taken by the writer, and its connection waits in the event loop. */
  lemma CanAlwaysFinish(streams: Token -> seq<Job>, steps: seq<Step>, t: Token, spot: Spot)
    returns (more: seq<Step>)
    requires Holding(Run(streams, steps), spot, t).Some? && !Run(streams, steps).ended
    ensures var s := Run(streams, steps + more);
            && t in s.ingress && s.ingress[t].next == |streams(t)| && s.wishes == [] && s.taken == |s.outbox|
            && Mine(Replied(s.outbox), t) == RoutedOf(streams(t))
            && Mine(OwnReplied(s.outbox), t) == LocalOf(streams(t))
  {
    var s0 := Run(streams, steps);
    RunKeepsInv(streams, steps);
    var a := DecodeAndReturn(s0, t, spot);
    var s1 := RunFrom(s0, a);
    var b := ServeAll(s1, t, InIngress);
    var s2 := RunFrom(s1, b);
    RunsJoin(s0, a, b);
    RunsJoin(Start(streams), steps, a + b);
    TakesWhatIsSent(streams, steps + (a + b));
    var c := WriteAll(s2, t, InIngress);
    RunsJoin(s0, a + b, c);
    more := a + b + c;
    RunsJoin(Start(streams), steps, more);
    AllAnswered(streams, steps + more, t);
  }

  /** Everything decoded and nothing waiting is everything answered. */
  lemma AllAnswered(streams: Token -> seq<Job>, steps: seq<Step>, t: Token)
    requires var s := Run(streams, steps); s.wishes == [] && Reach(s, t) == |streams(t)|
    ensures var s := Run(streams, steps);
            && Mine(Replied(s.outbox), t) == RoutedOf(streams(t))
            && Mine(OwnReplied(s.outbox), t) == LocalOf(streams(t))
  {
    var s := Run(streams, steps);
    RequestsKeepTheirOrder(streams, steps, t);
    WorkersAnswerTheirOwn(streams, steps, t);
    assert streams(t)[..|streams(t)|] == streams(t);
    assert Mine(s.served, t) + [] == Mine(s.served, t);
  }
}
