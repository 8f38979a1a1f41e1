/** What the decoder promises over whole connections: the commands handed over never depend on
    how the socket splits the stream, and on well-formed streams none is held back. */
module SessionLaws {
  import opened Bytes
  import opened Numbers
  import opened Decoder
  import opened Sessions

  /** part is what remains of whole once the commands g have been handed over. */
  predicate Continues(whole: Decoded, g: seq<Command>, part: Decoded) {
    && whole.granted == g + part.granted
    && whole.sin == part.sin
    && whole.reading == part.reading
    && whole.rest == part.rest
    && part.skips <= whole.skips
    && part.widest <= whole.widest
  }

  /** The session has done to the bytes received so far what the one-shot decoder does,
      up to the unread window. */
  predicate Faithful(s: Session) {
    && Valid(s)
    && Continues(Decode(START, s.received), s.granted, Decode(s.reading, s.window))
  }

  /** Received bytes and bytes still to come make up the stream. */
  predicate Of(s: Session, stream: Bytes) {
    s.received + Pending(s.script) == stream
  }

  /** No step is possible on the unread bytes. */
  predicate Drained(s: Session) {
    Next(s.reading, s.window).Starved?
  }

  /** Receiving more bytes keeps the correspondence. */
  lemma MoreBytes(s: Session, b: Bytes)
    requires Faithful(s)
    ensures Continues(Decode(START, s.received + b), s.granted, Decode(s.reading, s.window + b))
  {
    DecodeSplit(START, s.received, b);
    DecodeSplit(s.reading, s.window, b);
    var whole, part := Decode(START, s.received), Decode(s.reading, s.window);
    if part.sin.None? {
      ContinuesOn(whole, s.granted, part, Decode(part.reading, part.rest + b));
    }
  }

  lemma ContinuesOn(whole: Decoded, g: seq<Command>, part: Decoded, tail: Decoded)
    requires Continues(whole, g, part)
    ensures Continues(After(whole.granted, whole.skips, whole.widest, tail), g,
                      After(part.granted, part.skips, part.widest, tail))
  {
  }

  /** Skips seen by the one-shot decoder only grow as bytes arrive. */
  lemma SkipsGrow(a: Bytes, b: Bytes)
    ensures Decode(START, a).skips <= Decode(START, a + b).skips
  {
    DecodeSplit(START, a, b);
  }

  lemma FillKeeps(s: Session, stream: Bytes)
    requires Faithful(s) && Of(s, stream)
    ensures !FillOnce(s).Refused? ==> Faithful(FillOnce(s).session) && Of(FillOnce(s).session, stream)
  {
    FillIsSound(s);
    if FillOnce(s).Filled? {
      var s' := FillOnce(s).session;
      var b :| Moved(s, s', b);
      MoveKeeps(s, s', b, stream);
    }
  }

  lemma MoveKeeps(s: Session, s': Session, b: Bytes, stream: Bytes)
    requires Faithful(s) && Of(s, stream) && Moved(s, s', b)
    requires s'.reading == s.reading && s'.granted == s.granted && Fits(s')
    ensures Faithful(s') && Of(s', stream)
  {
    MoreBytes(s, b);
    assert s.received + (b + Pending(s'.script)) == (s.received + b) + Pending(s'.script);
  }

  lemma {:induction false} AdvanceKeeps(s: Session, stream: Bytes)
    requires Faithful(s) && Of(s, stream)
    requires Next(s.reading, s.window).Took?
    ensures var s' := Advance(s, Next(s.reading, s.window)); Faithful(s') && Of(s', stream)
  {
    var step := Next(s.reading, s.window);
    var tail := Decode(step.next, s.window[step.count..]);
    assert s.granted + (step.granted + tail.granted) == (s.granted + step.granted) + tail.granted;
  }

  /** Why a round may stop a session: a failure is a failure of the received bytes themselves, behind all the
      commands they complete, a lost connection, or a window beyond the limit; and without skips a good stop is
      drained. */
  predicate Justified(outcome: Outcome, s: Session) {
    match outcome
    case Fine => Decode(START, s.received).skips == 0 ==> Drained(s)
    case Fail(sin) =>
      || sin == Disconnected
      || (Decode(START, s.received).sin == Some(sin) && s.granted == Decode(START, s.received).granted)
      || (sin == Blasphemy && |s.window| > LIMIT - MARGIN)
  }

  /** A fill may end a session only when it is drained or a skip has been seen. */
  lemma {:induction false} AfterFillKeeps(s: Session, stream: Bytes)
    requires Faithful(s) && Of(s, stream)
    requires Drained(s) || Decode(START, s.received).skips > 0
    ensures var r := AfterFill(s, FillOnce(s));
            Faithful(r.session) && Of(r.session, stream) && (r.Halt? ==> Justified(r.outcome, r.session))
  {
    FillIsSound(s);
    FillKeeps(s, stream);
  }

  /** Every round of the loop, on every session. */
  lemma {:induction false} RoundKeeps(s: Session, stream: Bytes)
    requires Faithful(s) && Of(s, stream)
    ensures var r := RoundOf(s);
            Faithful(r.session) && Of(r.session, stream) && (r.Halt? ==> Justified(r.outcome, r.session))
  {
    if s.window != [] {
      match Next(s.reading, s.window) {
        case Sinful(_) =>
          assert s.granted + [] == s.granted;
        case Starved =>
          AfterFillKeeps(s, stream);
        case Took(_, _, _, skipped) =>
          AdvanceKeeps(s, stream);
          if skipped {
            AfterFillKeeps(Advance(s, Next(s.reading, s.window)), stream);
          }
      }
    }
  }

  lemma {:induction false} LoopKeeps(s: Session, stream: Bytes)
    requires Faithful(s) && Of(s, stream)
    ensures var (outcome, s') := Loop(s);
            Faithful(s') && Of(s', stream) && Justified(outcome, s')
    decreases Work(s)
  {
    RoundKeeps(s, stream);
    RoundIsSound(s);
    if RoundOf(s).Again? {
      LoopKeeps(RoundOf(s).session, stream);
    }
  }

  lemma WishKeeps(s: Session, stream: Bytes)
    requires Faithful(s) && Of(s, stream) && Justified(Fine, s)
    ensures var (outcome, s') := Wish(s);
            Faithful(s') && Of(s', stream) && Justified(outcome, s')
  {
    FillIsSound(s);
    FillKeeps(s, stream);
    if FillOnce(s).Filled? {
      LoopKeeps(FillOnce(s).session, stream);
    }
  }

  lemma {:induction false} CallsKeep(s: Session, n: nat, stream: Bytes)
    requires Faithful(s) && Of(s, stream) && Justified(Fine, s)
    ensures var (outcome, s') := Calls(s, n);
            Faithful(s') && Of(s', stream) && Justified(outcome, s')
    decreases n
  {
    if n > 0 {
      WishKeeps(s, stream);
      var (outcome, s') := Wish(s);
      if outcome.Fine? {
        CallsKeep(s', n - 1, stream);
      }
    }
  }

  lemma OpenIsFaithful(script: seq<Chunk>)
    ensures Faithful(Open(script)) && Of(Open(script), Pending(script)) && Justified(Fine, Open(script))
  {
  }

  /** Split independence. Whatever the socket does and however often wish is called, the commands
      handed over are a prefix of what the one-shot decoder makes of the bytes received so far,
      and so of what it makes of the whole stream. */
  lemma GrantedIsPrefix(script: seq<Chunk>, n: nat)
    ensures var (_, s) := Calls(Open(script), n);
            && s.received + Pending(s.script) == Pending(script)
            && s.granted <= Decode(START, s.received).granted <= Decode(START, Pending(script)).granted
  {
    OpenIsFaithful(script);
    CallsKeep(Open(script), n, Pending(script));
    var (_, s) := Calls(Open(script), n);
    MoreBytes(s, Pending(s.script));
    DecodeSplit(START, s.received, Pending(s.script));
  }

  /** The session after k rounds of a call's loop, or where the loop stopped before that. */
  function Rounds(s: Session, k: nat): Session
    requires Valid(s)
    decreases k
  {
    if k == 0 then s
    else
      RoundIsSound(s);
      match RoundOf(s)
      case Halt(_, s') => s'
      case Again(s') => Rounds(s', k - 1)
  }

  /** No round leads out of p. */
  ghost predicate Closed(p: iset<Session>) {
    && (forall s :: s in p ==> Valid(s))
    && (forall s {:trigger RoundOf(s)} :: s in p ==> RoundOf(s).session in p)
  }

  lemma {:induction false} RoundsStayIn(p: iset<Session>, s: Session, k: nat)
    requires Closed(p) && s in p
    ensures Rounds(s, k) in p
    decreases k
  {
    if k > 0 {
      var s1 := RoundOf(s).session;
      assert s1 in p;
      RoundsStayIn(p, s1, k - 1);
    }
  }

  lemma RoundsKeep(s: Session, k: nat, stream: Bytes)
    requires Faithful(s) && Of(s, stream)
    ensures Faithful(Rounds(s, k)) && Of(Rounds(s, k), stream)
  {
    var p := iset s: Session | Faithful(s) && Of(s, stream);
    forall s | s in p ensures Valid(s) && RoundOf(s).session in p {
      RoundKeeps(s, stream);
    }
    RoundsStayIn(p, s, k);
  }

  lemma {:induction false} GrantsHaveNames(r: Reading, w: Bytes)
    requires PhaseInvariant(r)
    ensures forall c :: c in Decode(r, w).granted ==> c != []
    decreases |w|
  {
    match Next(r, w) {
      case Took(n, next, g, _) =>
        GrantsHaveNames(next, w[n..]);
        assert forall c :: c in g ==> c == g[0];
      case _ =>
    }
  }

  /** A connection after n calls of wish, the first read of another, and k of its rounds. */
  function Moment(script: seq<Chunk>, n: nat, k: nat): Session {
    OpenIsFaithful(script);
    CallsKeep(Open(script), n, Pending(script));
    var s := Calls(Open(script), n).1;
    FillIsSound(s);
    if FillOnce(s).Refused? then s else Rounds(FillOnce(s).session, k)
  }

  /** The same at every moment, also in the middle of a call. The buffer and phase invariants hold then
      as well, and every command handed over has a first term. */
  lemma AtEveryMoment(script: seq<Chunk>, n: nat, k: nat)
    ensures var s := Moment(script, n, k);
            && Valid(s)
            && s.received + Pending(s.script) == Pending(script)
            && s.granted <= Decode(START, s.received).granted
            && forall c :: c in s.granted ==> c != []
  {
    var stream := Pending(script);
    OpenIsFaithful(script);
    CallsKeep(Open(script), n, stream);
    var s0 := Calls(Open(script), n).1;
    FillKeeps(s0, stream);
    if !FillOnce(s0).Refused? {
      RoundsKeep(FillOnce(s0).session, k, stream);
    }
    var s := Moment(script, n, k);
    GrantsHaveNames(START, s.received);
    assert forall c :: c in s.granted ==> c in Decode(START, s.received).granted;
  }

  /** Nothing is held back. If the bytes received so far hold no skipped byte, every command they
      complete has been handed over whenever wish returns without failure, and the session stands
      exactly where the one-shot decoder stands. */
  lemma NothingHeldBack(script: seq<Chunk>, n: nat)
    ensures var (outcome, s) := Calls(Open(script), n);
            var d := Decode(START, s.received);
            outcome.Fine? && d.skips == 0 ==>
              s.granted == d.granted && s.reading == d.reading && s.window == d.rest && d.sin.None?
  {
    OpenIsFaithful(script);
    CallsKeep(Open(script), n, Pending(script));
    var (_, s) := Calls(Open(script), n);
    assert s.granted + [] == s.granted;
  }

  lemma QuietFill(s: Session)
    requires Fits(s) && Quiet(s.script) && !FillOnce(s).Refused?
    ensures FillOnce(s).Blocked? || FillOnce(s).Filled?
    ensures Quiet(FillOnce(s).session.script)
  {
  }

  lemma QuietRound(s: Session)
    requires Valid(s) && Quiet(s.script)
    ensures Quiet(RoundOf(s).session.script)
    ensures RoundOf(s).Halt? ==> RoundOf(s).outcome != Fail(Disconnected)
  {
    if s.window != [] {
      match Next(s.reading, s.window) {
        case Sinful(_) =>
        case Starved =>
          if !FillOnce(s).Refused? {
            QuietFill(s);
          }
        case Took(_, _, _, skipped) =>
          var s1 := Advance(s, Next(s.reading, s.window));
          if skipped && !FillOnce(s1).Refused? {
            QuietFill(s1);
          }
      }
    }
  }

  lemma {:induction false} QuietLoop(s: Session)
    requires Valid(s) && Quiet(s.script)
    ensures Loop(s).0 != Fail(Disconnected) && Quiet(Loop(s).1.script)
    decreases Work(s)
  {
    QuietRound(s);
    RoundIsSound(s);
    if RoundOf(s).Again? {
      QuietLoop(RoundOf(s).session);
    }
  }

  lemma QuietWish(s: Session)
    requires Valid(s) && Quiet(s.script)
    ensures Wish(s).0 != Fail(Disconnected) && Quiet(Wish(s).1.script)
  {
    FillIsSound(s);
    if !FillOnce(s).Refused? {
      QuietFill(s);
      if FillOnce(s).Filled? {
        QuietLoop(FillOnce(s).session);
      }
    }
  }

  /** No call from p disconnects or leads out of it. */
  ghost predicate ClosedByCalls(p: iset<Session>) {
    && (forall s :: s in p ==> Valid(s))
    && (forall s {:trigger Wish(s)} :: s in p ==> Wish(s).0 != Fail(Disconnected) && Wish(s).1 in p)
  }

  lemma {:induction false} CallsStayIn(p: iset<Session>, s: Session, n: nat)
    requires ClosedByCalls(p) && s in p && Valid(s)
    ensures !Calls(s, n).0.Fail? || Calls(s, n).0.sin != Disconnected
    decreases n
  {
    if n > 0 {
      var s1 := Wish(s).1;
      assert s1 in p;
      CallsStayIn(p, s1, n - 1);
    }
  }

  /** A socket that neither closes nor errs never disconnects. */
  lemma QuietCalls(s: Session, n: nat)
    requires Valid(s) && Quiet(s.script)
    ensures Calls(s, n).0 != Fail(Disconnected)
  {
    var p := iset s | Valid(s) && Quiet(s.script);
    forall s | s in p ensures Wish(s).0 != Fail(Disconnected) && Wish(s).1 in p {
      QuietWish(s);
      WishIsSound(s);
    }
    CallsStayIn(p, s, n);
  }

  /** A failing connection fails for cause. */
  lemma FailuresAreEarned(script: seq<Chunk>, n: nat)
    ensures var (outcome, s) := Calls(Open(script), n);
            outcome.Fail? ==>
              || (outcome.sin == Disconnected && !Quiet(script))
              || (Decode(START, s.received).sin == Some(outcome.sin)
                  && s.granted == Decode(START, s.received).granted)
              || (outcome.sin == Blasphemy && |s.window| > LIMIT - MARGIN)
  {
    OpenIsFaithful(script);
    CallsKeep(Open(script), n, Pending(script));
    if Quiet(script) {
      QuietCalls(Open(script), n);
    }
  }

  /** A new connection when a whole short stream has come with its first read. */
  function AllRead(stream: Bytes): Session {
    Session(INITIAL, 0, stream, START, [], stream, [])
  }

  lemma FirstCall(stream: Bytes)
    requires 0 < |stream| <= INITIAL
    ensures Faithful(AllRead(stream)) && Wish(Open([Data(stream)])) == Loop(AllRead(stream))
  {
    assert [] + stream == stream && stream[..|stream|] == stream;
    assert FillOnce(Open([Data(stream)])) == Filled(AllRead(stream));
    var d := Decode(START, stream);
    assert [] + d.granted == d.granted;
  }

  /** The unread bytes fail without a skip. */
  predicate Doomed(s: Session) {
    var d := Decode(s.reading, s.window); d.sin.Some? && d.skips == 0
  }

  function Outstanding(s: Session): seq<Command> {
    s.granted + Decode(s.reading, s.window).granted
  }

  lemma DoomedStops(s: Session)
    requires Valid(s) && Doomed(s) && RoundOf(s).Halt?
    ensures RoundOf(s).outcome == Fail(Decode(s.reading, s.window).sin.value)
    ensures RoundOf(s).session.granted == Outstanding(s)
  {
    assert s.granted + [] == s.granted;
  }

  lemma DoomedGoesOn(s: Session)
    requires Valid(s) && Doomed(s) && RoundOf(s).Again?
    ensures var s' := RoundOf(s).session;
            && Doomed(s') && Outstanding(s') == Outstanding(s)
            && Decode(s'.reading, s'.window).sin == Decode(s.reading, s.window).sin
  {
    var s', step := RoundOf(s).session, Next(s.reading, s.window);
    var tail := Decode(s'.reading, s'.window).granted;
    assert (s.granted + step.granted) + tail == s.granted + (step.granted + tail);
  }

  /** Bytes that fail before any of them is skipped fail in the call that has read them, behind the commands
      they complete. */
  lemma {:induction false} LoopFails(s: Session, sin: Sin, commands: seq<Command>)
    requires Valid(s) && Doomed(s) && Decode(s.reading, s.window).sin == Some(sin) && Outstanding(s) == commands
    ensures Loop(s).0 == Fail(sin) && Loop(s).1.granted == commands
    decreases Work(s)
  {
    RoundIsSound(s);
    if RoundOf(s).Again? {
      DoomedGoesOn(s);
      LoopFails(RoundOf(s).session, sin, commands);
    } else {
      DoomedStops(s);
    }
  }

  /* ----- every mistake is found ----- */

  /** The bytes a session has still to decode. */
  function Left(s: Session): nat {
    |s.window| + |Pending(s.script)|
  }

  lemma FillLeaves(s: Session)
    requires Fits(s) && !FillOnce(s).Refused?
    ensures Left(FillOnce(s).session) == Left(s)
    ensures Effort(FillOnce(s).session.script) <= Effort(s.script)
    ensures s.script != [] ==> Effort(FillOnce(s).session.script) < Effort(s.script)
  {
    FillIsSound(s);
  }

  lemma RoundLeaves(s: Session)
    requires Valid(s)
    ensures Left(RoundOf(s).session) <= Left(s) && Effort(RoundOf(s).session.script) <= Effort(s.script)
  {
    if s.window != [] {
      match Next(s.reading, s.window) {
        case Sinful(_) =>
        case Starved =>
          if !FillOnce(s).Refused? {
            FillLeaves(s);
          }
        case Took(_, _, _, skipped) =>
          var s1 := Advance(s, Next(s.reading, s.window));
          if skipped && !FillOnce(s1).Refused? {
            FillLeaves(s1);
          }
      }
    }
  }

  lemma {:induction false} LoopLeaves(s: Session)
    requires Valid(s)
    ensures Left(Loop(s).1) <= Left(s) && Effort(Loop(s).1.script) <= Effort(s.script)
    decreases Work(s)
  {
    RoundLeaves(s);
    RoundIsSound(s);
    if RoundOf(s).Again? {
      LoopLeaves(RoundOf(s).session);
    }
  }

  lemma WishLeaves(s: Session)
    requires Valid(s)
    ensures Left(Wish(s).1) <= Left(s) && Effort(Wish(s).1.script) <= Effort(s.script)
    ensures Wish(s).0.Fine? && s.script != [] ==> Effort(Wish(s).1.script) < Effort(s.script)
  {
    FillIsSound(s);
    if !FillOnce(s).Refused? {
      FillLeaves(s);
      if FillOnce(s).Filled? {
        LoopLeaves(FillOnce(s).session);
      }
    }
  }

  lemma {:induction false} CallsLeave(s: Session, n: nat)
    requires Valid(s)
    ensures Left(Calls(s, n).1) <= Left(s)
    ensures Calls(s, n).0.Fine? && Effort(s.script) <= n ==> Effort(Calls(s, n).1.script) == 0
    decreases n
  {
    if n > 0 {
      WishLeaves(s);
      WishIsSound(s);
      var s1 := Wish(s).1;
      if Wish(s).0.Fine? {
        CallsLeave(s1, n - 1);
      }
    }
  }

  /** Every mistake is found. However a quiet socket splits a stream that decodes to a failure, with no skip
      before it, once wish has been called often enough it has failed in just that way, and has handed over
      just the commands the stream completes before that. */
  lemma MistakesAreFound(script: seq<Chunk>, n: nat)
    requires Quiet(script) && Effort(script) <= n && |Pending(script)| <= LIMIT - MARGIN
    requires Decode(START, Pending(script)).sin.Some? && Decode(START, Pending(script)).skips == 0
    ensures var (outcome, s) := Calls(Open(script), n);
            var d := Decode(START, Pending(script));
            outcome == Fail(d.sin.value) && s.granted == d.granted
  {
    var (outcome, s) := Calls(Open(script), n);
    CallsLeave(Open(script), n);
    GrantedIsPrefix(script, n);
    FailuresAreEarned(script, n);
    NothingHeldBack(script, n);
    SkipsGrow(s.received, Pending(s.script));
    DecodeSplit(START, s.received, Pending(s.script));
    assert s.received + [] == s.received;
  }

  /* ----- skips hold commands back ----- */

  /** Where decoding first drops a byte in place of a marker: what it makes of everything behind that
      byte. Without such a byte, where it stops. */
  function BehindSkip(r: Reading, w: Bytes): Decoded
    decreases |w|
  {
    match Next(r, w)
    case Took(n, next, _, skipped) => if skipped then Decode(next, w[n..]) else BehindSkip(next, w[n..])
    case _ => Decode(r, w)
  }

  predicate NothingToRead(script: seq<Chunk>) {
    script == [] || script[0].WouldBlock?
  }

  /** How many reads find bytes in the rest of a call's loop. */
  function Reads(s: Session): nat
    requires Valid(s)
    decreases Work(s)
  {
    RoundIsSound(s);
    match RoundOf(s)
    case Halt(_, _) => 0
    case Again(s') => (if s'.received == s.received then 0 else 1) + Reads(s')
  }

  /** Where the last of them leaves the session. */
  function LastRead(s: Session): Session
    requires Valid(s)
    decreases Work(s)
  {
    RoundIsSound(s);
    if Reads(s) == 0 then s else LastRead(RoundOf(s).session)
  }

  /** From there the loop finds no more bytes, and does all it still does. */
  lemma {:induction false} LastReadIsLast(s: Session, stream: Bytes)
    requires Faithful(s) && Of(s, stream)
    ensures var q := LastRead(s);
            Faithful(q) && Of(q, stream) && Reads(q) == 0 && Loop(q) == Loop(s)
    decreases Work(s)
  {
    if Reads(s) != 0 {
      RoundIsSound(s);
      RoundKeeps(s, stream);
      LastReadIsLast(RoundOf(s).session, stream);
    }
  }

  /** When no further read finds bytes, the loop stops behind the first skipped byte. */
  lemma {:induction false} LastBytesStopAtSkip(s: Session)
    requires Valid(s) && Reads(s) == 0
    ensures var (outcome, s') := Loop(s);
            var behind := BehindSkip(s.reading, s.window);
            && (outcome.Fine? ==> s'.received == s.received && Decode(s'.reading, s'.window) == behind)
            && (NothingToRead(s.script) && |s.window| <= LIMIT - MARGIN && behind.granted != [] ==> outcome.Fine?)
    decreases Work(s)
  {
    RoundIsSound(s);
    if s.window != [] {
      match Next(s.reading, s.window) {
        case Sinful(_) =>
        case Starved => FillIsSound(s);
        case Took(_, _, _, skipped) =>
          var s1 := Advance(s, Next(s.reading, s.window));
          if skipped {
            FillIsSound(s1);
          } else {
            LastBytesStopAtSkip(s1);
          }
      }
    }
  }

  lemma {:induction false} NothingToReadIsNoRead(s: Session)
    requires Valid(s) && NothingToRead(s.script)
    ensures Reads(s) == 0
    decreases Work(s)
  {
    RoundIsSound(s);
    if RoundOf(s).Again? {
      NothingToReadIsNoRead(RoundOf(s).session);
    }
  }

  /** What a call that returns well leaves unread: if it read nothing, what there was; otherwise what lies
      behind the first byte skipped after its last read. */
  function LeftBehind(s: Session): Decoded
    requires Valid(s)
  {
    FillIsSound(s);
    if FillOnce(s).Filled? then
      var q := LastRead(FillOnce(s).session);
      BehindSkip(q.reading, q.window)
    else Decode(s.reading, s.window)
  }

  lemma DeliveredOrLeft(s: Session)
    requires Faithful(s)
    ensures s.granted == Decode(START, s.received).granted <==> Decode(s.reading, s.window).granted == []
  {
    var g := Decode(s.reading, s.window).granted;
    assert |s.granted + g| == |s.granted| + |g|;
    if g == [] {
      assert s.granted + g == s.granted;
    }
  }

  /** The exact condition, for any call on any socket: a good return leaves a received command undelivered
      if and only if the call has left one behind a skipped byte, or found nothing to read while one was
      left already. */
  lemma {:induction false} HeldBackBehindSkip(s: Session, stream: Bytes)
    requires Faithful(s) && Of(s, stream)
    ensures var (outcome, s') := Wish(s);
            outcome.Fine? ==>
              && (s'.granted == Decode(START, s'.received).granted <==> LeftBehind(s).granted == [])
              && Decode(s'.reading, s'.window) == LeftBehind(s)
  {
    FillIsSound(s);
    FillKeeps(s, stream);
    var (outcome, s') := Wish(s);
    if FillOnce(s).Filled? {
      var s1 := FillOnce(s).session;
      LoopKeeps(s1, stream);
      LastReadIsLast(s1, stream);
      LastBytesStopAtSkip(LastRead(s1));
    }
    if outcome.Fine? {
      DeliveredOrLeft(s');
    }
  }

  /** Such a call: wish on "*1\r\nX$1\r\na\r\n", a stray X before the only marker of a complete command.
      It returns well, has received the whole command and has delivered nothing. */
  lemma {:induction false} SkipHoldsBack()
    ensures var stream: Bytes := [42, 49, 13, 10, 88, 36, 49, 13, 10, 97, 13, 10];
            var (outcome, s) := Wish(Open([Data(stream)]));
            && outcome.Fine? && s.received == stream && s.granted == []
            && Decode(START, s.received).granted == [[[97]]]
  {
    var stream: Bytes := [42, 49, 13, 10, 88, 36, 49, 13, 10, 97, 13, 10];
    FirstCall(stream);
    SkippedTerm(stream);
    StopsAtSkip(AllRead(stream), [[97]]);
  }

  lemma StopsAtSkip(s: Session, c: Command)
    requires Faithful(s) && s.script == [] && |s.window| <= LIMIT - MARGIN
    requires BehindSkip(s.reading, s.window).granted == Decode(START, s.received).granted == [c]
    ensures var (outcome, s') := Loop(s);
            outcome.Fine? && s'.received == s.received && s'.granted == []
  {
    NothingToReadIsNoRead(s);
    LastBytesStopAtSkip(s);
    LoopKeeps(s, s.received + Pending(s.script));
    var g := Loop(s).1.granted;
    assert |g + [c]| == |g| + 1;
  }

  lemma SkippedTerm(stream: Bytes)
    requires stream == [42, 49, 13, 10, 88, 36, 49, 13, 10, 97, 13, 10]
    ensures BehindSkip(START, stream).granted == [[[97]]] && Decode(START, stream).granted == [[[97]]]
  {
    var w1: Bytes := [49, 13, 10, 88, 36, 49, 13, 10, 97, 13, 10];
    var w2: Bytes := [88, 36, 49, 13, 10, 97, 13, 10];
    var r1, r2 := Reading(AwaitingTermCount, [], 0), Reading(GraspingMarker, [], 1);
    assert stream[1..] == w1 && w1[3..] == w2;
    assert Next(START, stream) == Took(1, r1, [], false);
    OneLine(w1);
    assert Next(r1, w1) == Took(3, r2, [], false);
    StrayMarker(w2);
    GrantedLater(START, stream);
    GrantedLater(r1, w1);
  }

  lemma StrayMarker(w: Bytes)
    requires w == [88, 36, 49, 13, 10, 97, 13, 10]
    ensures var r := Reading(GraspingMarker, [], 1);
            BehindSkip(r, w).granted == [[[97]]] && Decode(r, w).granted == [[[97]]]
  {
    var r, w1 := Reading(GraspingMarker, [], 1), w[1..];
    assert w1 == [36, 49, 13, 10, 97, 13, 10];
    assert Next(r, w) == Took(1, r, [], true);
    MarkedTerm(w1);
    GrantedLater(r, w);
  }

  /** A step that grants nothing leaves all grants to the rest. */
  lemma GrantedLater(r: Reading, w: Bytes)
    requires Next(r, w).Took? && Next(r, w).granted == []
    ensures Decode(r, w).granted == Decode(Next(r, w).next, w[Next(r, w).count..]).granted
  {
  }

  /** A one-digit count line. */
  lemma OneLine(w: Bytes)
    requires |w| >= 3 && w[0] == 49 && w[1] == CR && w[2] == LF
    ensures FindCrlf(w) == Some(1) && ParseNat(w[..1], USIZE_MAX) == Some(1)
  {
    assert FindCrlf(w[1..]) == Some(0);
    assert w[..1] == [49] && [49 as byte][..0] == [] && Magnitude([49]) == 1;
  }

  lemma MarkedTerm(w: Bytes)
    requires w == [36, 49, 13, 10, 97, 13, 10]
    ensures Decode(Reading(GraspingMarker, [], 1), w).granted == [[[97]]]
  {
    var w1, w2: Bytes := w[1..], [97, 13, 10];
    var r, r1, r2 := Reading(GraspingMarker, [], 1), Reading(AwaitingBulkStringLength, [], 1),
                     Reading(AwaitingBulkString(1), [], 1);
    assert Next(r, w) == Took(1, r1, [], false);
    OneLine(w1);
    assert w1[3..] == w2;
    assert Next(r1, w1) == Took(3, r2, [], false);
    assert w2[..1] == [97] && [] + [w2[..1]] == [[97]] && w2[3..] == [];
    assert Next(r2, w2) == Took(3, Reading(Idle, [], 1), [[[97]]], false);
    assert Decode(Reading(Idle, [], 1), []).granted == [];
    assert Decode(r2, w2).granted == [[[97]]];
    assert Decode(r1, w1).granted == [] + [[[97]]] == [[[97]]];
  }

  /* ----- well-formed streams ----- */

  /** A stream that decodes without failure or skip, and no step of which needs a window the
      buffer cannot hold. */
  predicate WellFormed(stream: Bytes) {
    var d := Decode(START, stream);
    d.sin.None? && d.skips == 0 && d.widest <= LIMIT - MARGIN + 1 && |d.rest| <= LIMIT - MARGIN
  }

  /** A socket that neither closes nor errs. */
  predicate Quiet(script: seq<Chunk>) {
    forall i :: 0 <= i < |script| ==> !script[i].Hangup? && script[i] != Data([])
  }

  predicate Calm(s: Session, stream: Bytes) {
    WellFormed(stream) && Faithful(s) && Of(s, stream) && Quiet(s.script)
  }

  /** On a well-formed stream the machine is never refused room it asks for. */
  lemma {:induction false} CalmFill(s: Session, stream: Bytes)
    requires Calm(s, stream) && Drained(s)
    ensures FillOnce(s).Blocked? || FillOnce(s).Filled?
    ensures Calm(FillOnce(s).session, stream)
    ensures FillOnce(s).Blocked? ==> Drained(FillOnce(s).session)
  {
    CalmWindow(s, stream);
    FillIsSound(s);
    FillKeeps(s, stream);
    QuietFill(s);
  }

  lemma CalmWindow(s: Session, stream: Bytes)
    requires Calm(s, stream) && Drained(s)
    ensures |s.window| <= LIMIT - MARGIN
  {
    var more := Pending(s.script);
    MoreBytes(s, more);
    if Next(s.reading, s.window + more).Took? {
      StarvedIsShort(s.reading, s.window, more);
    }
  }

  lemma CalmRound(s: Session, stream: Bytes)
    requires Calm(s, stream)
    ensures var r := RoundOf(s);
            Calm(r.session, stream) && (r.Halt? ==> r.outcome.Fine? && Drained(r.session))
  {
    RoundKeeps(s, stream);
    if s.window != [] {
      MoreBytes(s, Pending(s.script));
      NextIsStable(s.reading, s.window, Pending(s.script));
      if Drained(s) {
        CalmFill(s, stream);
      }
    }
  }

  lemma {:induction false} CalmLoop(s: Session, stream: Bytes)
    requires Calm(s, stream)
    ensures var (outcome, s') := Loop(s);
            outcome.Fine? && Calm(s', stream) && Drained(s') && Effort(s'.script) <= Effort(s.script)
    decreases Work(s)
  {
    CalmRound(s, stream);
    RoundIsSound(s);
    RoundLeaves(s);
    if RoundOf(s).Again? {
      CalmLoop(RoundOf(s).session, stream);
    }
  }

  /** One call on a quiet socket spends some of the script, if there is any left. */
  lemma CalmWish(s: Session, stream: Bytes)
    requires Calm(s, stream) && Drained(s)
    ensures Wish(s).0.Fine? && Calm(Wish(s).1, stream) && Drained(Wish(s).1)
    ensures if s.script == [] then Wish(s).1.script == [] else Effort(Wish(s).1.script) < Effort(s.script)
  {
    CalmFill(s, stream);
    FillIsSound(s);
    if FillOnce(s).Filled? {
      CalmLoop(FillOnce(s).session, stream);
    }
  }

  /** The sessions between two calls on a well-formed stream. */
  ghost function Waiting(stream: Bytes): iset<Session> {
    iset s: Session | Calm(s, stream) && Drained(s)
  }

  /** Every call from p is fine, stays in p and spends some of the script, if there is any left. */
  ghost predicate Spends(p: iset<Session>) {
    && (forall s :: s in p ==> Valid(s))
    && (forall s {:trigger Wish(s)} :: s in p ==>
          && Wish(s).0.Fine? && Wish(s).1 in p
          && if s.script == [] then Wish(s).1.script == [] else Effort(Wish(s).1.script) < Effort(s.script))
  }

  lemma {:induction false} CallsSpend(p: iset<Session>, s: Session, n: nat)
    requires Spends(p) && s in p && Valid(s)
    ensures Calls(s, n).0.Fine? && (Effort(s.script) <= n ==> Calls(s, n).1.script == [])
    decreases n
  {
    if n > 0 {
      var s1 := Wish(s).1;
      assert s1 in p;
      CallsSpend(p, s1, n - 1);
    }
  }

  lemma CalmCalls(s: Session, n: nat, stream: Bytes)
    requires s in Waiting(stream) && Valid(s)
    ensures Calls(s, n).0.Fine? && (Effort(s.script) <= n ==> Calls(s, n).1.script == [])
  {
    var p := Waiting(stream);
    forall s | s in p
      ensures Wish(s).0.Fine? && Wish(s).1 in p
      ensures if s.script == [] then Wish(s).1.script == [] else Effort(Wish(s).1.script) < Effort(s.script)
    {
      CalmWish(s, stream);
      WishIsSound(s);
    }
    CallsSpend(p, s, n);
  }

  /** The liveness half. However a well-formed stream is split, wish never fails on it; once it has
      been called often enough the whole stream has been read and every command in it handed over. */
  lemma WellFormedIsServed(script: seq<Chunk>, n: nat)
    requires WellFormed(Pending(script)) && Quiet(script)
    ensures var (outcome, s) := Calls(Open(script), n);
            var d := Decode(START, Pending(script));
            && outcome.Fine?
            && s.granted == Decode(START, s.received).granted
            && (Effort(script) <= n ==> s.granted == d.granted && s.reading == d.reading && s.window == d.rest)
  {
    OpenIsFaithful(script);
    CalmCalls(Open(script), n, Pending(script));
    NothingHeldBack(script, n);
    GrantedIsPrefix(script, n);
    var (_, s) := Calls(Open(script), n);
    SkipsGrow(s.received, Pending(s.script));
    if s.script == [] {
      assert s.received + [] == s.received;
    }
  }
}
