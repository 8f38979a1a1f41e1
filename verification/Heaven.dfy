/** The threads together: the hand-off machine, a Temple thread that really keeps a keyspace and a
    subscription history, and a writer that really writes. */
module Heaven {
  import opened Bytes
  import opened Replies
  import opened Resp
  import PubSub
  import Keyspace
  import Souls
  import T = Temples
  import H = Handoff
  import E = Egress

  /** What the jobs of the machine stand for: requests to the Temple thread, and the replies workers send
      themselves. The Temple thread starts with the keyspace of a snapshot, or none. */
  datatype Meaning = Meaning(command: nat -> T.ClientCommand, own: nat -> Response, start: Keyspace.Keyspace)

  /** SUBSCRIBE names at least one channel. */
  ghost predicate Sensible(mean: Meaning) {
    forall id: nat :: mean.command(id).Subscribe? ==> mean.command(id).events != []
  }

  /* ----- the Temple thread's work as a sequential program ----- */

  function Asked(mean: Meaning, w: H.Wish): T.ClientCommand {
    mean.command(w.job.id)
  }

  /** The subscription history after a sequence of requests. */
  function HistoryOf(mean: Meaning, ws: seq<H.Wish>): seq<PubSub.Action> {
    if ws == [] then []
    else
      var w := ws[|ws| - 1];
      HistoryOf(mean, ws[..|ws| - 1]) + T.Actions(w.token, Asked(mean, w))
  }

  /** The keyspace after a sequence of requests, each database command of a client without subscriptions
      executed in its turn. */
  function KeyspaceOf(mean: Meaning, ws: seq<H.Wish>): Keyspace.Keyspace {
    if ws == [] then mean.start
    else
      var before, w := ws[..|ws| - 1], ws[|ws| - 1];
      var c := Asked(mean, w);
      if c.Database? && T.ChannelsOf(HistoryOf(mean, before), w.token) == {}
      then Keyspace.Exec(KeyspaceOf(mean, before), c.request, c.now).0
      else KeyspaceOf(mean, before)
  }

  /** One turn of the Temple thread: what Temple.Serve promises. */
  ghost predicate Serves(history: seq<PubSub.Action>, token: Token, c: T.ClientCommand, d: T.Decree,
                         before: Keyspace.Keyspace, after: Keyspace.Keyspace) {
    if c.Database? then T.Executes(history, token, c, d, before, after)
    else T.Answers(history, token, c, d) && after == before
  }

  /** d is the right answer to w, after the requests ws. */
  ghost predicate Right(mean: Meaning, ws: seq<H.Wish>, w: H.Wish, d: T.Decree) {
    Serves(HistoryOf(mean, ws), w.token, Asked(mean, w), d, KeyspaceOf(mean, ws), KeyspaceOf(mean, ws + [w]))
  }

  /** ds are the answers of one sequential run over ws. */
  ghost predicate Sequential(mean: Meaning, ws: seq<H.Wish>, ds: seq<T.Decree>) {
    |ds| == |ws| && forall i :: 0 <= i < |ws| ==> Right(mean, ws[..i], ws[i], ds[i])
  }

  lemma OneMoreServed(mean: Meaning, ws: seq<H.Wish>, w: H.Wish)
    ensures HistoryOf(mean, ws + [w]) == HistoryOf(mean, ws) + T.Actions(w.token, Asked(mean, w))
    ensures var c := Asked(mean, w);
            KeyspaceOf(mean, ws + [w]) ==
            if c.Database? && T.ChannelsOf(HistoryOf(mean, ws), w.token) == {}
            then Keyspace.Exec(KeyspaceOf(mean, ws), c.request, c.now).0
            else KeyspaceOf(mean, ws)
  {
    assert (ws + [w])[..|ws|] == ws;
  }

  /** A turn's new keyspace is the one the request leads to. */
  lemma ServedKeyspace(mean: Meaning, ws: seq<H.Wish>, w: H.Wish, d: T.Decree, after: Keyspace.Keyspace)
    requires Serves(HistoryOf(mean, ws), w.token, Asked(mean, w), d, KeyspaceOf(mean, ws), after)
    ensures after == KeyspaceOf(mean, ws + [w]) && Right(mean, ws, w, d)
  {
    OneMoreServed(mean, ws, w);
  }

  lemma SequentialOn(mean: Meaning, ws: seq<H.Wish>, ds: seq<T.Decree>, w: H.Wish, d: T.Decree)
    requires Sequential(mean, ws, ds) && Right(mean, ws, w, d)
    ensures Sequential(mean, ws + [w], ds + [d])
  {
    var ws', ds' := ws + [w], ds + [d];
    forall i | 0 <= i < |ws'| ensures Right(mean, ws'[..i], ws'[i], ds'[i]) {
      assert ws'[..i] == ws[..i];
    }
    assert ws'[..|ws|] == ws;
  }

  /** The temple keeps what a sequence of requests leads to. */
  ghost predicate Keeps(mean: Meaning, temple: T.Temple, ws: seq<H.Wish>)
    reads temple, temple.soul, temple.clientMap, temple.eventMap
  {
    temple.Valid() && temple.history == HistoryOf(mean, ws) && temple.soul.entries == KeyspaceOf(mean, ws)
  }

  /** The request that ends the Temple thread, after the requests ws. */
  ghost predicate Fatal(mean: Meaning, ws: seq<H.Wish>, w: H.Wish) {
    T.Falls(HistoryOf(mean, ws), w.token, Asked(mean, w), KeyspaceOf(mean, ws))
  }

  method Turn(mean: Meaning, ghost ws: seq<H.Wish>, ghost ds: seq<T.Decree>, w: H.Wish, temple: T.Temple)
    returns (d: Option<T.Decree>)
    requires Sensible(mean) && Keeps(mean, temple, ws) && Sequential(mean, ws, ds) && !temple.fallen
    modifies temple, temple.soul, temple.clientMap, temple.eventMap
    ensures temple.fallen == d.None? == Fatal(mean, ws, w)
    ensures d.None? ==> Keeps(mean, temple, ws)
    ensures d.Some? ==> Keeps(mean, temple, ws + [w]) && Sequential(mean, ws + [w], ds + [d.value])
  {
    d := temple.Serve(w.token, mean.command(w.job.id));
    if d.Some? {
      OneMoreServed(mean, ws, w);
      ServedKeyspace(mean, ws, w, d.value, temple.soul.entries);
      SequentialOn(mean, ws, ds, w, d.value);
    } else {
      assert HistoryOf(mean, ws) + [] == HistoryOf(mean, ws);
    }
  }

  /** The Temple thread's loop over the requests it receives, up to one that ends it. */
  method Worship(mean: Meaning, queue: seq<H.Wish>, temple: T.Temple) returns (ds: seq<T.Decree>)
    requires Sensible(mean) && Keeps(mean, temple, []) && !temple.fallen
    modifies temple, temple.soul, temple.clientMap, temple.eventMap
    ensures |ds| <= |queue| && Keeps(mean, temple, queue[..|ds|]) && Sequential(mean, queue[..|ds|], ds)
    ensures temple.fallen <==> |ds| < |queue|
    ensures temple.fallen ==> Fatal(mean, queue[..|ds|], queue[|ds|])
  {
    ds := [];
    while |ds| < |queue|
      invariant |ds| <= |queue| && Keeps(mean, temple, queue[..|ds|]) && Sequential(mean, queue[..|ds|], ds)
      invariant !temple.fallen
    {
      var w := queue[|ds|];
      var d := Turn(mean, queue[..|ds|], ds, w, temple);
      if d.None? {
        return;
      }
      assert queue[..|ds| + 1] == queue[..|ds|] + [w];
      ds := ds + [d.value];
    }
  }

  /* ----- all threads ----- */

  /** The machine, what the Temple thread keeps, and what has really been sent to the egress thread. */
  datatype Whole = Whole(
    system: H.System, keyspace: Keyspace.Keyspace, history: seq<PubSub.Action>, sent: seq<T.Decree>)

  /** The decree an entry of the machine's outbox stands for. What answers a request is any right answer. */
  ghost predicate StandsFor(mean: Meaning, entry: H.Letter, d: T.Decree) {
    match entry
    case Welcome(t) => d == T.Welcome(t)
    case Goodbye(t) => d == T.Goodbye(t)
    case OwnReply(w) => d == T.Deliver(w.token, mean.own(w.job.id))
    case Reply(w) => (d.Deliver? || d.Broadcast?) && d.token == w.token
  }

  /** The Temple thread can take a turn. */
  predicate Turns(s: H.System, step: H.Step) {
    step.ServeWish? && s.wishes != [] && !s.ended
  }

  /** One step of one thread. The Temple thread's is a turn of its loop, or its end. */
  ghost predicate Steps(mean: Meaning, s: Whole, step: H.Step, s': Whole) {
    && s'.system == H.Next(s.system, step)
    && |s'.sent| == |s'.system.outbox| && s.sent <= s'.sent
    && (forall i :: |s.sent| <= i < |s'.sent| ==> StandsFor(mean, s'.system.outbox[i], s'.sent[i]))
    && (step.PanicWish? && s.system.wishes != [] ==>
          var w := s.system.wishes[0]; T.Falls(s.history, w.token, Asked(mean, w), s.keyspace))
    && if Turns(s.system, step) then
         var w := s.system.wishes[0];
         && Serves(s.history, w.token, Asked(mean, w), s'.sent[|s'.sent| - 1], s.keyspace, s'.keyspace)
         && s'.history == s.history + T.Actions(w.token, Asked(mean, w))
       else s'.keyspace == s.keyspace && s'.history == s.history
  }

  /** An interleaving of the threads, with every state on the way. */
  ghost predicate Runs(mean: Meaning, streams: Token -> seq<H.Job>, steps: seq<H.Step>, states: seq<Whole>) {
    && |states| == |steps| + 1
    && states[0] == Whole(H.Start(streams), mean.start, [], [])
    && forall i :: 0 <= i < |steps| ==> Steps(mean, states[i], steps[i], states[i + 1])
  }

  /** The decrees that answer requests, in the order sent. */
  function AnswersIn(outbox: seq<H.Letter>, sent: seq<T.Decree>): seq<T.Decree> {
    if outbox == [] || |sent| != |outbox| then []
    else
      var n := |outbox| - 1;
      AnswersIn(outbox[..n], sent[..n]) + if outbox[n].Reply? then [sent[n]] else []
  }

  /** What the Temple thread keeps, and the answers sent, are those of a sequential run over served. */
  ghost predicate Tied(mean: Meaning, s: Whole) {
    && |s.sent| == |s.system.outbox|
    && s.history == HistoryOf(mean, s.system.served)
    && s.keyspace == KeyspaceOf(mean, s.system.served)
    && Sequential(mean, s.system.served, AnswersIn(s.system.outbox, s.sent))
  }

  lemma {:induction false} AnswersAppend(outbox: seq<H.Letter>, sent: seq<T.Decree>, d: H.Letter, e: T.Decree)
    requires |outbox| == |sent|
    ensures AnswersIn(outbox + [d], sent + [e]) == AnswersIn(outbox, sent) + if d.Reply? then [e] else []
  {
    assert (outbox + [d])[..|outbox|] == outbox && (sent + [e])[..|sent|] == sent;
  }

  lemma TurnSends(mean: Meaning, s: Whole, s': Whole) returns (d: T.Decree)
    requires |s.sent| == |s.system.outbox| && Turns(s.system, H.ServeWish) && Steps(mean, s, H.ServeWish, s')
    ensures var w := s.system.wishes[0];
            && s'.sent == s.sent + [d] && s'.system.outbox == s.system.outbox + [H.Reply(w)]
            && s'.system.served == s.system.served + [w]
            && s'.history == s.history + T.Actions(w.token, Asked(mean, w))
            && Serves(s.history, w.token, Asked(mean, w), d, s.keyspace, s'.keyspace)
  {
    d := s'.sent[|s.sent|];
    assert s'.sent == s.sent + [d];
  }

  lemma TurnKeepsTied(mean: Meaning, s: Whole, s': Whole)
    requires Tied(mean, s) && Turns(s.system, H.ServeWish) && Steps(mean, s, H.ServeWish, s')
    ensures Tied(mean, s')
  {
    var outbox, ws, w := s.system.outbox, s.system.served, s.system.wishes[0];
    var d := TurnSends(mean, s, s');
    OneMoreServed(mean, ws, w);
    ServedKeyspace(mean, ws, w, d, s'.keyspace);
    AnswersAppend(outbox, s.sent, H.Reply(w), d);
    SequentialOn(mean, ws, AnswersIn(outbox, s.sent), w, d);
  }

  /** Steps of the other threads send at most one decree, and it answers no request. */
  lemma OtherStepSends(s: H.System, step: H.Step)
    requires !Turns(s, step)
    ensures var s' := H.Next(s, step);
            && s'.served == s.served
            && (s'.outbox == s.outbox ||
                (|s'.outbox| == |s.outbox| + 1 && s'.outbox[..|s.outbox|] == s.outbox && !s'.outbox[|s.outbox|].Reply?))
  {
  }

  lemma OtherStepAnswersNothing(mean: Meaning, s: Whole, step: H.Step, s': Whole)
    requires |s.sent| == |s.system.outbox| && Steps(mean, s, step, s')
    requires !Turns(s.system, step)
    ensures s'.system.served == s.system.served
    ensures AnswersIn(s'.system.outbox, s'.sent) == AnswersIn(s.system.outbox, s.sent)
  {
    OtherStepSends(s.system, step);
    var outbox, outbox' := s.system.outbox, s'.system.outbox;
    if outbox' == outbox {
      assert s'.sent == s.sent;
    } else {
      var e, d := outbox'[|outbox|], s'.sent[|outbox|];
      assert outbox' == outbox + [e] && s'.sent == s.sent + [d];
      AnswersAppend(outbox, s.sent, e, d);
    }
  }

  lemma OtherStepKeepsTied(mean: Meaning, s: Whole, step: H.Step, s': Whole)
    requires Tied(mean, s) && Steps(mean, s, step, s')
    requires !Turns(s.system, step)
    ensures Tied(mean, s')
  {
    OtherStepAnswersNothing(mean, s, step, s');
  }

  lemma StepKeepsTied(mean: Meaning, s: Whole, step: H.Step, s': Whole)
    requires Tied(mean, s) && Steps(mean, s, step, s')
    ensures Tied(mean, s')
  {
    if Turns(s.system, step) {
      TurnKeepsTied(mean, s, s');
    } else {
      OtherStepKeepsTied(mean, s, step, s');
    }
  }

  /** No step leads out of p. */
  ghost predicate Closed(mean: Meaning, p: iset<Whole>) {
    forall s, step, s' :: s in p && Steps(mean, s, step, s') ==> s' in p
  }

  lemma {:induction false} RunsStayIn(mean: Meaning, p: iset<Whole>, streams: Token -> seq<H.Job>,
                                      steps: seq<H.Step>, states: seq<Whole>, i: nat, j: nat)
    requires Closed(mean, p) && Runs(mean, streams, steps, states) && i <= j <= |steps| && states[i] in p
    ensures states[j] in p
    decreases j
  {
    if i < j {
      RunsStayIn(mean, p, streams, steps, states, i, j - 1);
      assert Steps(mean, states[j - 1], steps[j - 1], states[j]);
    }
  }

  lemma RunsStayTied(mean: Meaning, streams: Token -> seq<H.Job>, steps: seq<H.Step>, states: seq<Whole>, i: nat)
    requires Runs(mean, streams, steps, states) && i <= |steps|
    ensures Tied(mean, states[i])
  {
    var p := iset s | Tied(mean, s);
    forall s, step, s' | s in p && Steps(mean, s, step, s') ensures s' in p {
      StepKeepsTied(mean, s, step, s');
    }
    RunsStayIn(mean, p, streams, steps, states, 0, i);
  }

  /** The machine inside goes through a run of its own. */
  lemma {:induction false} RunsAreRuns(mean: Meaning, streams: Token -> seq<H.Job>, steps: seq<H.Step>,
                                       states: seq<Whole>, i: nat)
    requires Runs(mean, streams, steps, states) && i <= |steps|
    ensures states[i].system == H.Run(streams, steps[..i])
    decreases i
  {
    if i > 0 {
      RunsAreRuns(mean, streams, steps, states, i - 1);
      assert Steps(mean, states[i - 1], steps[i - 1], states[i]);
      assert steps[..i][..i - 1] == steps[..i - 1];
    }
  }

  /** In every interleaving the answers sent are those of one sequential run of the Temple thread's commands
      over the requests it has received; and what it keeps is what that run leads to. */
  lemma AnswersAreSequential(mean: Meaning, streams: Token -> seq<H.Job>, steps: seq<H.Step>, states: seq<Whole>)
    requires Runs(mean, streams, steps, states)
    ensures var s := states[|steps|];
            && |s.sent| == |s.system.outbox|
            && Sequential(mean, s.system.served, AnswersIn(s.system.outbox, s.sent))
            && s.keyspace == KeyspaceOf(mean, s.system.served)
            && s.history == HistoryOf(mean, s.system.served)
  {
    RunsStayTied(mean, streams, steps, states, |steps|);
  }

  /** The Temple thread ends only on a request that panics, ... */
  ghost predicate EndedForCause(mean: Meaning, s: Whole) {
    s.system.ended ==> s.system.wishes != [] && Fatal(mean, s.system.served, s.system.wishes[0])
  }

  lemma WaitsForever(s: H.System, step: H.Step)
    requires H.Next(s, step).ended
    ensures H.Next(s, step).served == s.served && s.wishes <= H.Next(s, step).wishes
    ensures s.ended || (step.PanicWish? && s.wishes != [])
  {
  }

  lemma StepKeepsCause(mean: Meaning, s: Whole, step: H.Step, s': Whole)
    requires Tied(mean, s) && EndedForCause(mean, s) && Steps(mean, s, step, s')
    ensures EndedForCause(mean, s')
  {
    if s'.system.ended {
      WaitsForever(s.system, step);
      assert Fatal(mean, s.system.served, s.system.wishes[0]);
    }
  }

  /** ... and that request is never answered, nor any behind it: as long as it comes first nothing more is
      served. */
  lemma FatalIsNotServed(mean: Meaning, s: Whole, step: H.Step, s': Whole)
    requires Tied(mean, s) && Steps(mean, s, step, s')
    requires s.system.wishes != [] && Fatal(mean, s.system.served, s.system.wishes[0])
    ensures s'.system.served == s.system.served && s.system.wishes <= s'.system.wishes
  {
    var w := s.system.wishes[0];
    NoAnswerToFatal(s.history, w.token, Asked(mean, w), s.keyspace);
    OnlyTurnsServe(s.system, step);
  }

  lemma NoAnswerToFatal(history: seq<PubSub.Action>, token: Token, c: T.ClientCommand, before: Keyspace.Keyspace)
    requires T.Falls(history, token, c, before)
    ensures forall d, after :: !Serves(history, token, c, d, before, after)
  {
  }

  lemma OnlyTurnsServe(s: H.System, step: H.Step)
    ensures !Turns(s, step) ==> H.Next(s, step).served == s.served && s.wishes <= H.Next(s, step).wishes
  {
  }

  lemma RunsEndForCause(mean: Meaning, streams: Token -> seq<H.Job>, steps: seq<H.Step>, states: seq<Whole>)
    requires Runs(mean, streams, steps, states)
    ensures EndedForCause(mean, states[|steps|])
  {
    var p := iset s | Tied(mean, s) && EndedForCause(mean, s);
    forall s, step, s' | s in p && Steps(mean, s, step, s') ensures s' in p {
      StepKeepsTied(mean, s, step, s');
      StepKeepsCause(mean, s, step, s');
    }
    RunsStayIn(mean, p, streams, steps, states, 0, |steps|);
  }

  /** In every interleaving, once a request that panics comes first, nothing is answered any more. */
  lemma NothingAfterFatal(mean: Meaning, streams: Token -> seq<H.Job>, steps: seq<H.Step>, states: seq<Whole>,
                          i: nat, j: nat)
    requires Runs(mean, streams, steps, states) && i <= j <= |steps|
    requires var s := states[i].system; s.wishes != [] && Fatal(mean, s.served, s.wishes[0])
    ensures states[j].system.served == states[i].system.served
    ensures states[i].system.wishes <= states[j].system.wishes
  {
    var served, wishes := states[i].system.served, states[i].system.wishes;
    var p := iset s | Tied(mean, s) && s.system.served == served && wishes <= s.system.wishes;
    forall s, step, s' | s in p && Steps(mean, s, step, s') ensures s' in p {
      StepKeepsTied(mean, s, step, s');
      FatalIsNotServed(mean, s, step, s');
    }
    RunsStayTied(mean, streams, steps, states, i);
    RunsStayIn(mean, p, streams, steps, states, i, j);
  }
}
