/** One connection's decoding session as a value: the geometry of the read buffer, the unread
    window, the phase machine, and the socket's future behaviour. Wish.dfy proves the in-place
    code equal to these functions; this file proves what src/wish.rs promises about them. */
module Sessions {
  import opened Bytes
  import opened Numbers
  import opened Decoder

  const INITIAL: nat := 4096
  const MARGIN: nat := 1024
  const LIMIT: nat := 64 * 1024 * 1024

  /** What successive reads of a socket find: some bytes (none at all is end of file), nothing yet,
      or an error. A read takes at most the room it is offered; the script ranges over every way
      a stream can be split and interleaved with waits. */
  datatype Chunk = Data(bytes: Bytes) | WouldBlock | Hangup

  /** All bytes a script will still deliver if it is read to the end. */
  function Pending(script: seq<Chunk>): Bytes {
    if script == [] then []
    else (if script[0].Data? then script[0].bytes else []) + Pending(script[1..])
  }

  datatype Session = Session(
    cap: nat, start: nat, window: Bytes, reading: Reading,
    script: seq<Chunk>, received: Bytes, granted: seq<Command>)

  function Open(script: seq<Chunk>): Session {
    Session(INITIAL, 0, [], START, script, [], [])
  }

  /** INITIAL times a power of two. */
  predicate Doubling(c: nat) {
    c == INITIAL || (c > INITIAL && c % 2 == 0 && Doubling(c / 2))
  }

  /** The buffer invariant: the window lies inside a buffer of a legal size. */
  predicate Fits(s: Session) {
    Doubling(s.cap) && INITIAL <= s.cap <= LIMIT && s.start + |s.window| <= s.cap
  }

  predicate Valid(s: Session) {
    Fits(s) && PhaseInvariant(s.reading)
  }

  /** Compact, and if that is not enough double the buffer; None is the refusal to grow. */
  function MakeRoom(s: Session): Option<Session>
    requires Fits(s)
  {
    if s.start + |s.window| > s.cap - MARGIN then
      if |s.window| > s.cap - MARGIN then
        if s.cap * 2 > LIMIT then None else Some(s.(start := 0, cap := s.cap * 2))
      else Some(s.(start := 0))
    else Some(s)
  }

  datatype Fill =
    | Refused
    | Gone(session: Session)
    | Blocked(session: Session)
    | Filled(session: Session)

  /** potentially_resize_and_read: make room, then one read. */
  function FillOnce(s: Session): Fill
    requires Fits(s)
  {
    match MakeRoom(s)
    case None => Refused
    case Some(s) => ReadOnce(s)
  }

  /** One read into the room behind the window. */
  function ReadOnce(s: Session): Fill
    requires s.start + |s.window| <= s.cap
  {
    if s.script == [] then Blocked(s)
    else match s.script[0]
      case WouldBlock => Blocked(s.(script := s.script[1..]))
      case Hangup => Gone(s.(script := s.script[1..]))
      case Data(b) =>
        if b == [] then Gone(s.(script := s.script[1..]))
        else
          var room := s.cap - (s.start + |s.window|);
          var n := if |b| <= room then |b| else room;
          var left := if n == |b| then s.script[1..] else [Data(b[n..])] + s.script[1..];
          Filled(s.(window := s.window + b[..n], received := s.received + b[..n], script := left))
  }

  datatype Outcome = Fine | Fail(sin: Sin)

  /** One round of the decoding loop: stop with an outcome, or go round again. */
  datatype Round = Halt(outcome: Outcome, session: Session) | Again(session: Session)

  function AfterFill(s: Session, f: Fill): Round {
    match f
    case Refused => Halt(Fail(Blasphemy), s)
    case Gone(s') => Halt(Fail(Disconnected), s')
    case Blocked(s') => Halt(Fine, s')
    case Filled(s') => Again(s')
  }

  /** The session after a step took some bytes. */
  function Advance(s: Session, step: Step): Session
    requires step.Took? && step.count <= |s.window|
  {
    s.(start := s.start + step.count, window := s.window[step.count..],
       reading := step.next, granted := s.granted + step.granted)
  }

  function RoundOf(s: Session): Round
    requires Fits(s)
  {
    if s.window == [] then Halt(Fine, s)
    else match Next(s.reading, s.window)
      case Sinful(sin) => Halt(Fail(sin), s)
      case Starved => AfterFill(s, FillOnce(s))
      case Took(_, _, _, skipped) =>
        var s' := Advance(s, Next(s.reading, s.window));
        if skipped then AfterFill(s', FillOnce(s')) else Again(s')
  }

  /** The loop's measure: bytes still in the socket count twice, unread bytes once. */
  function Work(s: Session): nat {
    2 * |Pending(s.script)| + |s.window|
  }

  /** The decoding loop. */
  function Loop(s: Session): (Outcome, Session)
    requires Valid(s)
    decreases Work(s)
  {
    RoundIsSound(s);
    match RoundOf(s)
    case Halt(outcome, s') => (outcome, s')
    case Again(s') => Loop(s')
  }

  /** One call of wish on a readable connection. */
  function Wish(s: Session): (Outcome, Session)
    requires Valid(s)
  {
    FillIsSound(s);
    match FillOnce(s)
    case Refused => (Fail(Blasphemy), s)
    case Gone(s') => (Fail(Disconnected), s')
    case Blocked(s') => (Fine, s')
    case Filled(s') => Loop(s')
  }

  /** Up to n calls; a failure is the last one, since the connection is then dropped. */
  function Calls(s: Session, n: nat): (Outcome, Session)
    requires Valid(s)
    decreases n
  {
    if n == 0 then (Fine, s)
    else
      var (outcome, s') := Wish(s);
      WishIsSound(s);
      if outcome.Fine? then Calls(s', n - 1) else (outcome, s')
  }

  /* ----- the buffer ----- */

  lemma {:induction false} DoublingGap(c: nat, d: nat)
    requires Doubling(c) && Doubling(d) && c < d
    ensures 2 * c <= d
  {
    if c != INITIAL {
      DoublingGap(c / 2, d / 2);
    }
  }

  /** A legal capacity is the limit itself, or may be doubled once more. */
  lemma MayDouble(c: nat)
    requires Doubling(c) && INITIAL <= c <= LIMIT
    ensures c == LIMIT || (2 * c <= LIMIT && Doubling(2 * c))
  {
    assert Doubling(LIMIT);
    if c < LIMIT {
      DoublingGap(c, LIMIT);
      assert 2 * c / 2 == c;
    }
  }

  /** Making room never touches the unread bytes and leaves at least 1024 bytes free. It grows
      the buffer exactly when the window alone exceeds the capacity less 1024, and it refuses
      exactly when the window exceeds 64 MiB less 1024. */
  lemma RoomIsMade(s: Session)
    requires Fits(s)
    ensures MakeRoom(s).None? <==> |s.window| > 67_107_840
    ensures var m := MakeRoom(s);
            m.Some? ==>
              var s' := m.value;
              && Fits(s') && s' == s.(start := s'.start, cap := s'.cap)
              && s'.cap - (s'.start + |s'.window|) >= 1024
              && s'.cap == if |s.window| > s.cap - 1024 then 2 * s.cap else s.cap
  {
    MayDouble(s.cap);
  }

  lemma PendingHead(script: seq<Chunk>, b: Bytes, n: nat)
    requires script != [] && script[0] == Data(b) && n <= |b|
    ensures Pending(script) == b[..n] + Pending([Data(b[n..])] + script[1..])
    ensures n == |b| ==> Pending(script) == b[..n] + Pending(script[1..])
  {
    var left := [Data(b[n..])] + script[1..];
    assert left[1..] == script[1..];
    assert b == b[..n] + b[n..];
    assert b[..n] + (b[n..] + Pending(script[1..])) == b + Pending(script[1..]);
  }

  /** What one fill does: a successful one moves at least one byte from the front of the pending
      stream to the back of the window and changes nothing else of substance. */
  lemma FillIsSound(s: Session)
    requires Fits(s)
    ensures FillOnce(s).Refused? <==> |s.window| > LIMIT - MARGIN
    ensures var f := FillOnce(s);
            !f.Refused? ==>
              var s' := f.session;
              && Fits(s') && s'.reading == s.reading && s'.granted == s.granted
              && (f.Filled? ==>
                    exists b: Bytes :: Moved(s, s', b))
              && (!f.Filled? ==> s'.window == s.window && s'.received == s.received
                                 && Pending(s'.script) == Pending(s.script))
              && (s.script != [] ==> Effort(s'.script) < Effort(s.script))
  {
    RoomIsMade(s);
    if MakeRoom(s).Some? {
      var m := MakeRoom(s).value;
      ReadIsSound(m);
      if FillOnce(s).Filled? {
        var b :| Moved(m, FillOnce(s).session, b);
        assert Moved(s, FillOnce(s).session, b);
      }
    }
  }

  lemma ReadIsSound(s: Session)
    requires s.start + |s.window| < s.cap
    ensures ReadOnce(s).Filled? ==> exists b: Bytes :: Moved(s, ReadOnce(s).session, b)
    ensures s.script != [] ==> Effort(ReadOnce(s).session.script) < Effort(s.script)
    ensures ReadOnce(s).session.start + |ReadOnce(s).session.window| <= s.cap
  {
    if ReadOnce(s).Filled? {
      var b := s.script[0].bytes;
      var room := s.cap - (s.start + |s.window|);
      var n := if |b| <= room then |b| else room;
      PendingHead(s.script, b, n);
      assert Moved(s, ReadOnce(s).session, b[..n]);
    }
  }

  /** A read that finds the end of the stream, or an error, ends the connection: nothing more is received
      and nothing more handed over. */
  lemma EndIsNoticed(s: Session)
    requires Valid(s) && s.script != [] && (s.script[0].Hangup? || s.script[0] == Data([]))
    requires |s.window| <= 67_107_840
    ensures var (outcome, s') := Wish(s);
            outcome == Fail(Disconnected) && s'.received == s.received && s'.granted == s.granted
  {
    RoomIsMade(s);
  }

  /** How much a script can still cause to happen: its chunks and its bytes. */
  function Effort(script: seq<Chunk>): nat {
    |script| + |Pending(script)|
  }

  /** b moved from the socket into the window. */
  predicate Moved(s: Session, s': Session, b: Bytes) {
    && b != []
    && s'.window == s.window + b
    && s'.received == s.received + b
    && Pending(s.script) == b + Pending(s'.script)
  }

  /** Every round keeps the session valid, and every further round has less work. */
  lemma {:induction false} RoundIsSound(s: Session)
    requires Valid(s)
    ensures Valid(RoundOf(s).session)
    ensures RoundOf(s).Again? ==> Work(RoundOf(s).session) < Work(s)
  {
    if s.window != [] {
      match Next(s.reading, s.window) {
        case Sinful(_) =>
        case Starved => FillIsSound(s);
        case Took(_, _, _, skipped) =>
          if skipped {
            FillIsSound(Advance(s, Next(s.reading, s.window)));
          }
      }
    }
  }

  lemma {:induction false} LoopIsSound(s: Session)
    requires Valid(s)
    ensures Valid(Loop(s).1)
    decreases Work(s)
  {
    RoundIsSound(s);
    if RoundOf(s).Again? {
      LoopIsSound(RoundOf(s).session);
    }
  }

  lemma WishIsSound(s: Session)
    requires Valid(s)
    ensures Valid(Wish(s).1)
  {
    FillIsSound(s);
    if FillOnce(s).Filled? {
      LoopIsSound(FillOnce(s).session);
    }
  }
}
