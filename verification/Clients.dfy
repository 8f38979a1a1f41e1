/** What one client sees of the threads together: which answers it is sent, which of them are written to its
    socket, and what it reads. */
module Clients {
  import opened Bytes
  import opened Replies
  import opened Resp
  import PubSub
  import Keyspace
  import T = Temples
  import H = Handoff
  import E = Egress
  import opened Heaven

  /* ----- answers ----- */

  /** Where the k-th request of client t stands among all requests. */
  function PlaceOf(ws: seq<H.Wish>, t: Token, k: nat): (i: nat)
    requires k < |H.Mine(ws, t)|
    ensures i < |ws| && ws[i].token == t && ws[i].job == H.Mine(ws, t)[k] && |H.Mine(ws[..i], t)| == k
  {
    var n := |ws| - 1;
    if ws[n].token == t && k == |H.Mine(ws[..n], t)| then n
    else
      var i := PlaceOf(ws[..n], t, k);
      assert ws[..n][..i] == ws[..i];
      i
  }

  /** The answers sent to client t's requests, in the order sent. */
  function AnswersTo(outbox: seq<H.Letter>, sent: seq<T.Decree>, t: Token): seq<T.Decree> {
    if outbox == [] || |sent| != |outbox| then []
    else
      var n := |outbox| - 1;
      var mine := outbox[n].Reply? && outbox[n].wish.token == t;
      AnswersTo(outbox[..n], sent[..n], t) + if mine then [sent[n]] else []
  }

  /** They are the answers at the places of the client's requests. */
  lemma {:induction false} AnswerAtPlace(outbox: seq<H.Letter>, sent: seq<T.Decree>, t: Token, k: nat)
    requires |outbox| == |sent|
    ensures var ws := H.Replied(outbox);
            && |AnswersIn(outbox, sent)| == |ws|
            && |AnswersTo(outbox, sent, t)| == |H.Mine(ws, t)|
            && (k < |H.Mine(ws, t)| ==> AnswersTo(outbox, sent, t)[k] == AnswersIn(outbox, sent)[PlaceOf(ws, t, k)])
  {
    if outbox != [] {
      var n := |outbox| - 1;
      var ws, d := H.Replied(outbox[..n]), outbox[n];
      AnswerAtPlace(outbox[..n], sent[..n], t, k);
      assert outbox == outbox[..n] + [d];
      H.OneMoreDecree(outbox[..n], d);
      if d.Reply? {
        H.OneMoreWish(ws, d.wish, t);
        assert (ws + [d.wish])[..|ws|] == ws;
      } else {
        assert ws + [] == ws;
      }
    }
  }

  /** In every interleaving a client has been sent one answer for each of its requests that has been served,
      and the k-th is the right answer to the k-th request its stream holds for the Temple thread, at the
      moment that request was served. */
  lemma ClientsGetTheirAnswers(mean: Meaning, streams: Token -> seq<H.Job>, steps: seq<H.Step>, states: seq<Whole>,
                               t: Token, k: nat) returns (i: nat)
    requires Runs(mean, streams, steps, states)
    requires k < |H.Mine(states[|steps|].system.served, t)|
    ensures var s := states[|steps|];
            var ws, answers, routed := s.system.served, AnswersTo(s.system.outbox, s.sent, t), H.RoutedOf(streams(t));
            && |answers| == |H.Mine(ws, t)| <= |routed|
            && i < |ws| && |H.Mine(ws[..i], t)| == k && ws[i] == H.Wish(t, routed[k])
            && Right(mean, ws[..i], ws[i], answers[k])
  {
    var s := states[|steps|];
    RunsStayTied(mean, streams, steps, states, |steps|);
    RunsAreRuns(mean, streams, steps, states, |steps|);
    H.RunKeepsInv(streams, steps[..|steps|]);
    AnswerAtPlace(s.system.outbox, s.sent, t, k);
    ServedInOrder(s.system, t);
    i := PlaceOf(s.system.served, t, k);
  }

  lemma ServedInOrder(s: H.System, t: Token)
    requires H.Inv(s)
    ensures H.Mine(s.served, t) <= H.RoutedOf(s.streams(t))
  {
    assert H.OrderedFor(s, t);
    H.MineAppend(s.served, s.wishes, t);
    H.RoutedPrefix(s.streams(t), H.Reach(s, t));
  }

  /* ----- the decrees sent come in turn ----- */

  /** What is sent is what the machine's outbox stands for. */
  ghost predicate Matched(mean: Meaning, outbox: seq<H.Letter>, sent: seq<T.Decree>) {
    |sent| == |outbox| && forall i :: 0 <= i < |sent| ==> StandsFor(mean, outbox[i], sent[i])
  }

  /** Whoever is subscribed has been welcomed. */
  ghost predicate SubscribersWelcomed(s: Whole) {
    forall t, e :: (t, e) in PubSub.Relation(s.history) ==> T.Welcome(t) in s.sent
  }

  ghost predicate Proper(mean: Meaning, s: Whole) {
    Matched(mean, s.system.outbox, s.sent) && SubscribersWelcomed(s) && E.Orderly(s.sent)
  }

  lemma MatchedEnds(mean: Meaning, outbox: seq<H.Letter>, sent: seq<T.Decree>, t: Token)
    requires Matched(mean, outbox, sent)
    ensures H.Welcome(t) in outbox <==> T.Welcome(t) in sent
    ensures H.Goodbye(t) in outbox <==> T.Goodbye(t) in sent
  {
    forall i | 0 <= i < |sent|
      ensures outbox[i] == H.Welcome(t) <==> sent[i] == T.Welcome(t)
      ensures outbox[i] == H.Goodbye(t) <==> sent[i] == T.Goodbye(t)
    {
      assert StandsFor(mean, outbox[i], sent[i]);
    }
  }

  lemma OrderlyOn(ds: seq<T.Decree>, d: T.Decree)
    requires E.Orderly(ds) && E.InTurn(ds, d)
    ensures E.Orderly(ds + [d])
  {
    assert (ds + [d])[..|ds|] == ds;
  }

  /** A new decree that stands for a letter in turn comes in turn, if its message is for subscribers. */
  lemma StandsInTurn(mean: Meaning, outbox: seq<H.Letter>, sent: seq<T.Decree>, letter: H.Letter, d: T.Decree)
    requires Matched(mean, outbox, sent) && H.InTurn(outbox, letter) && StandsFor(mean, letter, d)
    requires d.Broadcast? ==> forall c :: c in d.clients ==> T.Welcome(c) in sent
    ensures E.InTurn(sent, d)
  {
    MatchedEnds(mean, outbox, sent, H.Client(letter));
  }

  lemma MatchedOn(mean: Meaning, outbox: seq<H.Letter>, sent: seq<T.Decree>, letter: H.Letter, d: T.Decree)
    requires Matched(mean, outbox, sent) && StandsFor(mean, letter, d)
    ensures Matched(mean, outbox + [letter], sent + [d])
  {
  }

  /** Only its own client's subscriptions grow with a request. */
  lemma RelationGrows(history: seq<PubSub.Action>, token: Token, c: T.ClientCommand, t: Token, e: Bytes)
    requires (t, e) in PubSub.Relation(history + T.Actions(token, c))
    ensures (t, e) in PubSub.Relation(history) || t == token
  {
    if c.Database? {
      assert history + [] == history;
    } else {
      var a := T.Actions(token, c)[0];
      assert T.Actions(token, c) == [a];
      assert (history + [a])[..|history|] == history;
    }
  }

  lemma TurnKeepsProper(mean: Meaning, s: Whole, s': Whole)
    requires Proper(mean, s) && H.Greeted(s.system)
    requires Turns(s.system, H.ServeWish) && Steps(mean, s, H.ServeWish, s')
    ensures Proper(mean, s')
  {
    var w := s.system.wishes[0];
    var d := TurnSends(mean, s, s');
    assert StandsFor(mean, s'.system.outbox[|s.sent|], s'.sent[|s.sent|]);
    assert w in s.system.wishes;
    MatchedEnds(mean, s.system.outbox, s.sent, w.token);
    DecreeKeepsOrderly(mean, s.system.outbox, s.sent, H.Reply(w), d);
    forall t, e | (t, e) in PubSub.Relation(s'.history) ensures T.Welcome(t) in s'.sent {
      RelationGrows(s.history, w.token, Asked(mean, w), t, e);
    }
  }

  lemma OtherStepKeepsProper(mean: Meaning, s: Whole, step: H.Step, s': Whole)
    requires Proper(mean, s) && H.Courteous(s'.system.outbox)
    requires !Turns(s.system, step) && Steps(mean, s, step, s')
    ensures Proper(mean, s')
  {
    OtherStepSends(s.system, step);
    var n := |s.sent|;
    if |s'.sent| == n {
      assert s'.sent == s.sent;
    } else {
      var letter, d := s'.system.outbox[n], s'.sent[n];
      assert StandsFor(mean, letter, d) && s'.sent == s.sent + [d];
      assert s'.system.outbox == s.system.outbox + [letter] && s'.system.outbox[..n] == s.system.outbox;
      assert !letter.Reply?;
      LetterKeepsProper(mean, s, s', letter, d);
    }
  }

  lemma LetterKeepsProper(mean: Meaning, s: Whole, s': Whole, letter: H.Letter, d: T.Decree)
    requires Proper(mean, s) && H.InTurn(s.system.outbox, letter) && StandsFor(mean, letter, d) && !letter.Reply?
    requires s'.sent == s.sent + [d] && s'.system.outbox == s.system.outbox + [letter] && s'.history == s.history
    ensures Proper(mean, s')
  {
    DecreeKeepsOrderly(mean, s.system.outbox, s.sent, letter, d);
  }

  lemma DecreeKeepsOrderly(mean: Meaning, outbox: seq<H.Letter>, sent: seq<T.Decree>, letter: H.Letter, d: T.Decree)
    requires Matched(mean, outbox, sent) && E.Orderly(sent) && H.InTurn(outbox, letter) && StandsFor(mean, letter, d)
    requires d.Broadcast? ==> forall c :: c in d.clients ==> T.Welcome(c) in sent
    ensures Matched(mean, outbox + [letter], sent + [d]) && E.Orderly(sent + [d])
  {
    StandsInTurn(mean, outbox, sent, letter, d);
    MatchedOn(mean, outbox, sent, letter, d);
    OrderlyOn(sent, d);
  }

  lemma StepKeepsProper(mean: Meaning, s: Whole, step: H.Step, s': Whole)
    requires Proper(mean, s) && H.InStep(s.system) && H.Known(s.system) && H.Greeted(s.system)
    requires Steps(mean, s, step, s')
    ensures Proper(mean, s')
  {
    if Turns(s.system, step) {
      TurnKeepsProper(mean, s, s');
    } else {
      H.StepIsCourteous(s.system, step);
      OtherStepKeepsProper(mean, s, step, s');
    }
  }

  lemma RunsStayProper(mean: Meaning, streams: Token -> seq<H.Job>, steps: seq<H.Step>, states: seq<Whole>)
    requires Runs(mean, streams, steps, states)
    ensures Proper(mean, states[|steps|])
  {
    var p := iset s | Proper(mean, s) && H.Inv(s.system) && H.Greeted(s.system);
    forall s, step, s' | s in p && Steps(mean, s, step, s') ensures s' in p {
      StepKeepsProper(mean, s, step, s');
      H.StepKeepsInv(s.system, step);
      H.StepKeepsGreeted(s.system, step);
    }
    H.RunKeepsInv(streams, []);
    H.RunKeepsGreeted(streams, []);
    RunsStayIn(mean, p, streams, steps, states, 0, |steps|);
  }

  /* ----- which answers are written ----- */

  /** Where the k-th answer to client t stands among everything sent. */
  function SpotOf(outbox: seq<H.Letter>, sent: seq<T.Decree>, t: Token, k: nat): (i: nat)
    requires |outbox| == |sent| && k < |AnswersTo(outbox, sent, t)|
    ensures i < |sent| && outbox[i].Reply? && outbox[i].wish.token == t && sent[i] == AnswersTo(outbox, sent, t)[k]
    ensures |AnswersTo(outbox[..i], sent[..i], t)| == k
  {
    var n := |outbox| - 1;
    if k == |AnswersTo(outbox[..n], sent[..n], t)| then n
    else
      var i := SpotOf(outbox[..n], sent[..n], t, k);
      assert outbox[..n][..i] == outbox[..i] && sent[..n][..i] == sent[..i];
      i
  }

  /** In every interleaving the k-th answer to a client finds the client's socket if and only if it has not
      been overtaken by the client's farewell. */
  lemma AnswerWrittenUnlessFarewell(mean: Meaning, streams: Token -> seq<H.Job>, steps: seq<H.Step>,
                                    states: seq<Whole>, fates: Token -> seq<E.Fate>, t: Token, k: nat)
    returns (i: nat)
    requires Runs(mean, streams, steps, states)
    requires var s := states[|steps|]; k < |AnswersTo(s.system.outbox, s.sent, t)|
    ensures var s := states[|steps|];
            && i < |s.sent| && s.sent[i] == AnswersTo(s.system.outbox, s.sent, t)[k]
            && |s.system.outbox| == |s.sent| && |AnswersTo(s.system.outbox[..i], s.sent[..i], t)| == k
            && (t in E.ObeyAll(fates, s.sent[..i]) <==> T.Goodbye(t) !in s.sent[..i])
  {
    var s := states[|steps|];
    RunsStayProper(mean, streams, steps, states);
    i := SpotOf(s.system.outbox, s.sent, t, k);
    assert StandsFor(mean, s.system.outbox[i], s.sent[i]);
    E.WrittenUnlessFarewell(fates, s.sent, i);
  }

  /** The writer tells the event loop what the machine says it does: of a farewell always, of a reply if it
      could not be written. */
  lemma WriterTellsTheLoop(mean: Meaning, letter: H.Letter, d: T.Decree, sockets: map<Token, E.Socket>)
    requires StandsFor(mean, letter, d)
    ensures E.ToldOf(sockets, d) == H.ToldOf(letter, E.ToldOf(sockets, d) != [])
  {
  }

  /* ----- what a client reads ----- */

  /** What a decree sends a client: the answer to one of its requests, or something else. */
  datatype Share = Answer(values: seq<Resp>) | Other(values: seq<Resp>)

  function ShareOf(letter: H.Letter, d: T.Decree, t: Token): Share {
    if letter.Reply? && letter.wish.token == t then Answer(E.Frames(d, t)) else Other(E.Frames(d, t))
  }

  function Shares(outbox: seq<H.Letter>, sent: seq<T.Decree>, t: Token): seq<Share>
    requires |outbox| == |sent|
  {
    seq(|sent|, i requires 0 <= i < |sent| => ShareOf(outbox[i], sent[i], t))
  }

  function ValuesOf(shares: seq<Share>): seq<Resp> {
    if shares == [] then [] else ValuesOf(shares[..|shares| - 1]) + shares[|shares| - 1].values
  }

  function AnswersOf(shares: seq<Share>): seq<seq<Resp>> {
    if shares == [] then []
    else
      var last := shares[|shares| - 1];
      AnswersOf(shares[..|shares| - 1]) + if last.Answer? then [last.values] else []
  }

  function FramesOf(ds: seq<T.Decree>, t: Token): seq<seq<Resp>> {
    seq(|ds|, i requires 0 <= i < |ds| => E.Frames(ds[i], t))
  }

  lemma SharesPrefix(outbox: seq<H.Letter>, sent: seq<T.Decree>, t: Token, n: nat)
    requires |outbox| == |sent| && n <= |sent|
    ensures Shares(outbox, sent, t)[..n] == Shares(outbox[..n], sent[..n], t)
  {
  }

  /** The shares make up everything sent, ... */
  lemma {:induction false} SharesAddUp(outbox: seq<H.Letter>, sent: seq<T.Decree>, t: Token)
    requires |outbox| == |sent|
    ensures ValuesOf(Shares(outbox, sent, t)) == E.AllFrames(sent, t)
  {
    if outbox != [] {
      var n := |outbox| - 1;
      SharesPrefix(outbox, sent, t, n);
      SharesAddUp(outbox[..n], sent[..n], t);
    }
  }

  lemma FramesOn(ds: seq<T.Decree>, d: T.Decree, t: Token)
    ensures FramesOf(ds + [d], t) == FramesOf(ds, t) + [E.Frames(d, t)]
  {
  }

  /** ... and the answers among them are the client's answers. */
  lemma {:induction false} AnswersAmongShares(outbox: seq<H.Letter>, sent: seq<T.Decree>, t: Token)
    requires |outbox| == |sent|
    ensures AnswersOf(Shares(outbox, sent, t)) == FramesOf(AnswersTo(outbox, sent, t), t)
  {
    if outbox != [] {
      var n := |outbox| - 1;
      SharesPrefix(outbox, sent, t, n);
      AnswersAmongShares(outbox[..n], sent[..n], t);
      var before := AnswersTo(outbox[..n], sent[..n], t);
      FramesOn(before, sent[n], t);
      assert before + [] == before && FramesOf(before, t) + [] == FramesOf(before, t);
    }
  }

  /** A client's share of the decrees taken so far, up to its farewell. */
  function Shared(outbox: seq<H.Letter>, sent: seq<T.Decree>, taken: nat, t: Token): seq<Share>
    requires taken <= |sent| == |outbox|
  {
    var n := E.UntilFarewell(sent[..taken], t);
    Shares(outbox[..n], sent[..n], t)
  }

  lemma SharesAreRead(outbox: seq<H.Letter>, sent: seq<T.Decree>, taken: nat, fates: Token -> seq<E.Fate>, t: Token)
    requires taken <= |sent| == |outbox| && E.Orderly(sent)
    requires forall i :: 0 <= i < |sent| ==> E.Prints(sent[i])
    ensures var stream := E.Stream(fates, sent[..taken], t);
            stream.failures == 0 ==> ReadAll(stream.written) == Some(ValuesOf(Shared(outbox, sent, taken, t)))
  {
    var ds := sent[..taken];
    var n := E.UntilFarewell(ds, t);
    E.OrderlyPrefix(sent, taken);
    E.ClientsReadWhatWasSent(fates, ds, t);
    E.SentUntilFarewell(ds, t);
    assert ds[..n] == sent[..n];
    SharesAddUp(outbox[..n], sent[..n], t);
  }

  lemma SharedAnswers(outbox: seq<H.Letter>, sent: seq<T.Decree>, taken: nat, t: Token)
    requires taken <= |sent| == |outbox|
    ensures var n := E.UntilFarewell(sent[..taken], t);
            && AnswersOf(Shared(outbox, sent, taken, t)) == FramesOf(AnswersTo(outbox[..n], sent[..n], t), t)
            && AnswersTo(outbox[..n], sent[..n], t) <= AnswersTo(outbox, sent, t)
  {
    var n := E.UntilFarewell(sent[..taken], t);
    AnswersAmongShares(outbox[..n], sent[..n], t);
    AnswersPrefix(outbox, sent, t, n);
  }

  /** In every interleaving a client whose writes have not failed reads exactly its shares of the decrees the
      writer has taken, up to its farewell if there is one, in order. The answers among them are the first of
      the answers sent to it. */
  lemma ClientsReadTheirAnswers(mean: Meaning, streams: Token -> seq<H.Job>, steps: seq<H.Step>, states: seq<Whole>,
                                fates: Token -> seq<E.Fate>, t: Token)
    requires Runs(mean, streams, steps, states)
    requires var s := states[|steps|]; forall i :: 0 <= i < |s.sent| ==> E.Prints(s.sent[i])
    ensures var s := states[|steps|];
            && s.system.taken <= |s.sent| == |s.system.outbox|
            && var ds := s.sent[..s.system.taken];
               var stream, n := E.Stream(fates, ds, t), E.UntilFarewell(ds, t);
               var shares := Shared(s.system.outbox, s.sent, s.system.taken, t);
               && (stream.failures == 0 ==> ReadAll(stream.written) == Some(ValuesOf(shares)))
               && AnswersOf(shares) == FramesOf(AnswersTo(s.system.outbox[..n], s.sent[..n], t), t)
               && AnswersTo(s.system.outbox[..n], s.sent[..n], t) <= AnswersTo(s.system.outbox, s.sent, t)
  {
    var s := states[|steps|];
    RunsTakeSent(mean, streams, steps, states);
    RunsStayProper(mean, streams, steps, states);
    SharesAreRead(s.system.outbox, s.sent, s.system.taken, fates, t);
    SharedAnswers(s.system.outbox, s.sent, s.system.taken, t);
  }

  lemma {:induction false} AnswersPrefix(outbox: seq<H.Letter>, sent: seq<T.Decree>, t: Token, n: nat)
    requires |outbox| == |sent| && n <= |sent|
    ensures AnswersTo(outbox[..n], sent[..n], t) <= AnswersTo(outbox, sent, t)
  {
    if n == |sent| {
      assert outbox[..n] == outbox && sent[..n] == sent;
    } else {
      var m := |sent| - 1;
      AnswersPrefix(outbox[..m], sent[..m], t, n);
      assert outbox[..m][..n] == outbox[..n] && sent[..m][..n] == sent[..n];
    }
  }

  lemma StepTakesSent(mean: Meaning, s: Whole, step: H.Step, s': Whole)
    requires s.system.taken <= |s.sent| == |s.system.outbox| && Steps(mean, s, step, s')
    ensures s'.system.taken <= |s'.sent| == |s'.system.outbox|
  {
  }

  lemma RunsTakeSent(mean: Meaning, streams: Token -> seq<H.Job>, steps: seq<H.Step>, states: seq<Whole>)
    requires Runs(mean, streams, steps, states)
    ensures var s := states[|steps|]; s.system.taken <= |s.sent| == |s.system.outbox|
  {
    var p := iset s: Whole | s.system.taken <= |s.sent| == |s.system.outbox|;
    forall s, step, s' | s in p && Steps(mean, s, step, s') ensures s' in p {
      StepTakesSent(mean, s, step, s');
    }
    RunsStayIn(mean, p, streams, steps, states, 0, |steps|);
  }

  /* ----- an answer that is lost ----- */

  lemma SilentStep(mean: Meaning, s: Whole, step: H.Step)
    requires |s.sent| == |s.system.outbox| && H.Next(s.system, step).outbox == s.system.outbox
    requires !step.ServeWish? && !step.PanicWish?
    ensures Steps(mean, s, step, s.(system := H.Next(s.system, step)))
  {
  }

  lemma LetterStep(mean: Meaning, s: Whole, step: H.Step, letter: H.Letter, d: T.Decree)
    requires |s.sent| == |s.system.outbox| && H.Next(s.system, step).outbox == s.system.outbox + [letter]
    requires !step.ServeWish? && !step.PanicWish? && StandsFor(mean, letter, d)
    ensures Steps(mean, s, step, s.(system := H.Next(s.system, step), sent := s.sent + [d]))
  {
  }

  /** GET k on an empty store. */
  lemma AnswerStep(mean: Meaning, s: Whole, k: Bytes, now: Keyspace.Time, w: H.Wish)
    requires mean.command(w.job.id) == T.Database(Keyspace.At(k, Keyspace.OnString(Keyspace.Get)), now)
    requires |s.sent| == |s.system.outbox| && s.system.wishes == [w] && !s.system.ended
    requires s.keyspace == map[] && s.history == []
    ensures var d := T.Deliver(w.token, BulkString(None));
            Steps(mean, s, H.ServeWish, s.(system := H.Next(s.system, H.ServeWish), sent := s.sent + [d]))
  {
    assert T.ChannelsOf([], w.token) == {};
    assert s.keyspace - {k} == s.keyspace;
    assert s.history + [] == s.history;
  }

  /** A run and one more step. */
  lemma RunsOn(mean: Meaning, streams: Token -> seq<H.Job>, steps: seq<H.Step>, states: seq<Whole>,
               step: H.Step, s: Whole) returns (steps': seq<H.Step>, states': seq<Whole>)
    requires Runs(mean, streams, steps, states) && Steps(mean, states[|steps|], step, s)
    ensures Runs(mean, streams, steps', states') && states'[|steps'|] == s
  {
    steps', states' := steps + [step], states + [s];
    forall i | 0 <= i < |steps'| ensures Steps(mean, states'[i], steps'[i], states'[i + 1]) {
      if i < |steps| {
        assert Steps(mean, states[i], steps[i], states[i + 1]);
      }
    }
  }

  /** One client, accepted, dispatched and with a worker. */
  ghost predicate Singing(s: H.System) {
    && s.angels == map[0 := H.Song(1, H.Pilgrim(0))] && s.choir == [] && s.wishes == []
    && !s.ended && s.outbox == [H.Welcome(1)]
  }

  /** The first client is accepted and gets a worker. */
  lemma FirstSong(mean: Meaning, streams: Token -> seq<H.Job>) returns (steps: seq<H.Step>, states: seq<Whole>)
    ensures Runs(mean, streams, steps, states)
    ensures var s := states[|steps|];
            && Singing(s.system) && s.system.streams == streams
            && s == Whole(s.system, mean.start, [], [T.Welcome(1)])
  {
    var s0 := Whole(H.Start(streams), mean.start, [], []);
    var s1 := s0.(system := H.Next(s0.system, H.Accept), sent := [] + [T.Welcome(1)]);
    var s2 := s1.(system := H.Next(s1.system, H.Dispatch(1)));
    var s3 := s2.(system := H.Next(s2.system, H.BeginSong(0)));
    LetterStep(mean, s0, H.Accept, H.Welcome(1), T.Welcome(1));
    SilentStep(mean, s1, H.Dispatch(1));
    SilentStep(mean, s2, H.BeginSong(0));
    steps, states := RunsOn(mean, streams, [], [s0], H.Accept, s1);
    steps, states := RunsOn(mean, streams, steps, states, H.Dispatch(1), s2);
    steps, states := RunsOn(mean, streams, steps, states, H.BeginSong(0), s3);
  }

  /** Its worker passes on its one request and says goodbye, ... */
  lemma FirstFarewell(mean: Meaning, streams: Token -> seq<H.Job>, w: H.Wish)
    returns (steps: seq<H.Step>, states: seq<Whole>)
    requires streams(1) == [H.Routed(0)] && w == H.Wish(1, H.Routed(0)) && mean.start == map[]
    ensures Runs(mean, streams, steps, states)
    ensures var s := states[|steps|];
            && s.system.outbox == [H.Welcome(1), H.Goodbye(1)] && s.system.wishes == [w] && !s.system.ended
            && s == Whole(s.system, map[], [], [T.Welcome(1), T.Goodbye(1)])
  {
    steps, states := FirstSong(mean, streams);
    var s3 := states[|steps|];
    SilentStep(mean, s3, H.GrantJob(0));
    var s4 := s3.(system := H.Next(s3.system, H.GrantJob(0)));
    assert s4.system.wishes == [w] && s4.system.angels[0].token == 1;
    LetterStep(mean, s4, H.FailSong(0), H.Goodbye(1), T.Goodbye(1));
    var s5 := s4.(system := H.Next(s4.system, H.FailSong(0)), sent := s4.sent + [T.Goodbye(1)]);
    steps, states := RunsOn(mean, streams, steps, states, H.GrantJob(0), s4);
    steps, states := RunsOn(mean, streams, steps, states, H.FailSong(0), s5);
  }

  /** ... before the Temple thread answers. */
  lemma ThenAnswer(mean: Meaning, streams: Token -> seq<H.Job>, steps: seq<H.Step>, states: seq<Whole>,
                   k: Bytes, now: Keyspace.Time, w: H.Wish) returns (steps': seq<H.Step>, states': seq<Whole>)
    requires Runs(mean, streams, steps, states)
    requires mean.command(w.job.id) == T.Database(Keyspace.At(k, Keyspace.OnString(Keyspace.Get)), now)
    requires var s := states[|steps|];
             && |s.sent| == |s.system.outbox| && s.system.wishes == [w] && !s.system.ended
             && s.keyspace == map[] && s.history == []
    ensures Runs(mean, streams, steps', states')
    ensures var s, s' := states[|steps|], states'[|steps'|];
            && s'.system.outbox == s.system.outbox + [H.Reply(w)]
            && s'.sent == s.sent + [T.Deliver(w.token, BulkString(None))]
  {
    var s := states[|steps|];
    var s' := s.(system := H.Next(s.system, H.ServeWish), sent := s.sent + [T.Deliver(w.token, BulkString(None))]);
    AnswerStep(mean, s, k, now, w);
    steps', states' := RunsOn(mean, streams, steps, states, H.ServeWish, s');
  }

  /** A client sends GET k and then a byte that is no command, and its worker's farewell overtakes the answer:
      the answer is sent, and written nowhere. */
  lemma FarewellLosesAnswer(mean: Meaning, streams: Token -> seq<H.Job>, k: Bytes, now: Keyspace.Time,
                            fates: Token -> seq<E.Fate>) returns (steps: seq<H.Step>, states: seq<Whole>)
    requires streams(1) == [H.Routed(0)] && mean.start == map[]
    requires mean.command(0) == T.Database(Keyspace.At(k, Keyspace.OnString(Keyspace.Get)), now)
    ensures Runs(mean, streams, steps, states)
    ensures var s := states[|steps|];
            && AnswersTo(s.system.outbox, s.sent, 1) == [T.Deliver(1, BulkString(None))]
            && E.Stream(fates, s.sent, 1).written == [] && 1 !in E.ObeyAll(fates, s.sent)
  {
    var w := H.Wish(1, H.Routed(0));
    steps, states := FirstFarewell(mean, streams, w);
    steps, states := ThenAnswer(mean, streams, steps, states, k, now, w);
    var s, d := states[|steps|], T.Deliver(1, BulkString(None));
    assert s.sent == [T.Welcome(1), T.Goodbye(1), d];
    assert s.system.outbox == [H.Welcome(1), H.Goodbye(1), H.Reply(w)];
    LostBehindFarewell(fates, s.system.outbox, w, d);
  }

  lemma LostBehindFarewell(fates: Token -> seq<E.Fate>, outbox: seq<H.Letter>, w: H.Wish, d: T.Decree)
    requires w.token == 1 && outbox == [H.Welcome(1), H.Goodbye(1), H.Reply(w)]
    requires d.Deliver? && d.token == 1
    ensures var sent := [T.Welcome(1), T.Goodbye(1), d];
            && AnswersTo(outbox, sent, 1) == [d]
            && E.Stream(fates, sent, 1).written == [] && 1 !in E.ObeyAll(fates, sent)
  {
    OnlyAnswer(outbox, [T.Welcome(1), T.Goodbye(1), d], w, d);
    NothingWritten(fates, d);
  }

  lemma OnlyAnswer(outbox: seq<H.Letter>, sent: seq<T.Decree>, w: H.Wish, d: T.Decree)
    requires w.token == 1 && outbox == [H.Welcome(1), H.Goodbye(1), H.Reply(w)]
    requires sent == [T.Welcome(1), T.Goodbye(1), d]
    ensures AnswersTo(outbox, sent, 1) == [d]
  {
    assert outbox[..2][..1] == outbox[..1] && sent[..2][..1] == sent[..1];
    assert AnswersTo(outbox[..1], sent[..1], 1) == [];
    assert AnswersTo(outbox[..2], sent[..2], 1) == [];
  }

  lemma NothingWritten(fates: Token -> seq<E.Fate>, d: T.Decree)
    requires d.Deliver?
    ensures var sent := [T.Welcome(1), T.Goodbye(1), d];
            E.Stream(fates, sent, 1).written == [] && 1 !in E.ObeyAll(fates, sent)
  {
    var sent := [T.Welcome(1), T.Goodbye(1), d];
    assert sent[..2][..1] == [T.Welcome(1)] && sent[..2][1] == T.Goodbye(1);
    E.SocketsAreStreams(fates, sent, 1);
    assert !E.Open(sent[..2], 1) && E.Open(sent[..2][..1], 1);
    assert E.Stream(fates, sent[..2][..1], 1).written == [];
    assert E.Stream(fates, sent[..2], 1).written == [];
  }
}
