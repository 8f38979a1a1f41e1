/** src/wish.rs in its own form: a Virtue that is compacted, grown and filled in place, and the
    loop of wish over it. Each method is proved equal to its function in Sessions. */
module Wish {
  import opened Bytes
  import opened Numbers
  import opened Decoder
  import S = Sessions

  /** A non-blocking socket, and all it has delivered so far. */
  class Stream {
    var script: seq<S.Chunk>
    ghost var received: Bytes

    constructor (script: seq<S.Chunk>)
      ensures this.script == script && received == []
    {
      this.script := script;
      received := [];
    }

    /** Reads into buffer[from..]. None is an error or the end of the stream, Some(0) that the read
        would block. */
    method Read(buffer: array<byte>, from: nat, ghost s: S.Session) returns (n: Option<nat>)
      requires from < buffer.Length
      requires s.cap == buffer.Length && s.start + |s.window| == from
      requires s.script == script && s.received == received
      modifies this, buffer
      ensures n.Some? ==> from + n.value <= buffer.Length
      ensures buffer[..from] == old(buffer[..from])
      ensures S.ReadOnce(s) ==
              match n
              case None => S.Gone(s.(script := script))
              case Some(k) =>
                if k == 0 then S.Blocked(s.(script := script))
                else S.Filled(s.(window := s.window + buffer[from..from + k],
                                 received := received, script := script))
      ensures n.None? || n.value == 0 ==> received == old(received)
    {
      if |script| == 0 {
        return Some(0);
      }
      var chunk := script[0];
      match chunk {
        case WouldBlock =>
          script := script[1..];
          n := Some(0);
        case Hangup =>
          script := script[1..];
          n := None;
        case Data(b) =>
          if |b| == 0 {
            script := script[1..];
            return None;
          }
          var room := buffer.Length - from;
          var k := if |b| <= room then |b| else room;
          forall i | 0 <= i < k {
            buffer[from + i] := b[i];
          }
          assert buffer[from..from + k] == b[..k];
          script := if k == |b| then script[1..] else [S.Data(b[k..])] + script[1..];
          received := received + b[..k];
          n := Some(k);
      }
    }
  }

  /** Where grant sends what it is given. */
  class Sanctum {
    var granted: seq<Command>

    constructor ()
      ensures granted == []
    {
      granted := [];
    }

    /** grant reads the command name in terms[0]. */
    method Grant(terms: Command)
      requires terms != []
      modifies this
      ensures granted == old(granted) + [terms]
    {
      granted := granted + [terms];
    }
  }

  /** A usize sum in a release build. */
  function WrapUsize(x: nat): nat {
    x % (USIZE_MAX + 1)
  }

  /** The round on a bulk string, in the usize arithmetic of the code. */
  lemma BulkStringRound(s: S.Session)
    requires S.Valid(s) && s.reading.phase.AwaitingBulkString? && s.window != []
    ensures var w, len := s.window, s.reading.phase.len;
            S.RoundOf(s) ==
            if |w| < WrapUsize(len + 2) then S.AfterFill(s, S.FillOnce(s))
            else if len + 1 >= |w| then S.Halt(S.Fail(Panic), s)
            else if w[len] != CR || w[len + 1] != LF then S.Halt(S.Fail(Blasphemy), s)
            else S.Again(S.Advance(s, Next(s.reading, w)))
  {
  }

  datatype FillResult = WouldBlock | Read | Sinned(sin: Sin)

  class Virtue {
    var backlog: array<byte>
    var readIdx: nat
    var writeIdx: nat
    var terms: seq<Bytes>
    var expectedTerms: nat
    var phase: Phase

    predicate InBounds()
      reads this
    {
      readIdx <= writeIdx <= backlog.Length
    }

    function Window(): Bytes
      requires InBounds()
      reads this, backlog
    {
      backlog[readIdx..writeIdx]
    }

    /** The session this Virtue is the memory of. */
    ghost function View(stream: Stream, sanctum: Sanctum): S.Session
      requires InBounds()
      reads this, backlog, stream, sanctum
    {
      S.Session(backlog.Length, readIdx, Window(), Reading(phase, terms, expectedTerms),
                stream.script, stream.received, sanctum.granted)
    }

    constructor ()
      ensures fresh(backlog) && InBounds() && Window() == []
      ensures backlog.Length == 4096 && readIdx == 0
      ensures Reading(phase, terms, expectedTerms) == START
    {
      backlog := new byte[S.INITIAL];
      readIdx, writeIdx := 0, 0;
      terms, expectedTerms, phase := [], 0, Idle;
    }

    /** Moves the unread bytes to the front, in place. */
    method Compact()
      requires InBounds()
      modifies this`readIdx, this`writeIdx, backlog
      ensures InBounds() && readIdx == 0 && Window() == old(Window())
    {
      if readIdx > 0 {
        var len := writeIdx - readIdx;
        forall i | 0 <= i < len {
          backlog[i] := backlog[readIdx + i];
        }
        readIdx := 0;
        writeIdx := len;
      }
    }

    /** Vec::resize to a larger size. */
    method Resize(size: nat)
      requires InBounds() && size >= backlog.Length
      modifies this`backlog
      ensures fresh(backlog) && backlog.Length == size && InBounds() && Window() == old(Window())
    {
      var grown := new byte[size];
      forall i | 0 <= i < backlog.Length {
        grown[i] := backlog[i];
      }
      backlog := grown;
    }

    /** Compaction, then growth; false when the buffer may not grow any further. */
    method MakeRoom(stream: Stream, ghost sanctum: Sanctum) returns (ok: bool)
      requires InBounds() && S.Fits(View(stream, sanctum))
      modifies this`readIdx, this`writeIdx, this`backlog, backlog
      ensures InBounds() && (backlog == old(backlog) || fresh(backlog))
      ensures ok ==> S.MakeRoom(old(View(stream, sanctum))) == Some(View(stream, sanctum))
      ensures !ok ==> S.MakeRoom(old(View(stream, sanctum))) == None
    {
      if writeIdx > backlog.Length - S.MARGIN {
        Compact();
        if writeIdx > backlog.Length - S.MARGIN {
          var newSize := backlog.Length * 2;
          if newSize > S.LIMIT {
            return false;
          }
          Resize(newSize);
        }
      }
      return true;
    }

    /** One read into the room behind the window. */
    method ReadInto(stream: Stream, ghost sanctum: Sanctum) returns (r: FillResult)
      requires InBounds() && writeIdx < backlog.Length
      modifies this`writeIdx, backlog, stream
      ensures InBounds()
      ensures match S.ReadOnce(old(View(stream, sanctum)))
              case Refused => false
              case Gone(s) => r == Sinned(Disconnected) && View(stream, sanctum) == s
              case Blocked(s) => r == WouldBlock && View(stream, sanctum) == s
              case Filled(s) => r == Read && View(stream, sanctum) == s
    {
      ghost var w := Window();
      var n := stream.Read(backlog, writeIdx, View(stream, sanctum));
      assert backlog[readIdx..writeIdx] == backlog[..writeIdx][readIdx..] == w;
      match n {
        case None =>
          return Sinned(Disconnected);
        case Some(k) =>
          assert backlog[readIdx..writeIdx + k] == w + backlog[writeIdx..writeIdx + k];
          writeIdx := writeIdx + k;
          return if k == 0 then WouldBlock else Read;
      }
    }

    /** Ok(true), Ok(false) and Err of the source. */
    method PotentiallyResizeAndRead(stream: Stream, ghost sanctum: Sanctum) returns (r: FillResult)
      requires InBounds() && S.Fits(View(stream, sanctum))
      modifies this`readIdx, this`writeIdx, this`backlog, backlog, stream
      ensures InBounds() && (backlog == old(backlog) || fresh(backlog))
      ensures match S.FillOnce(old(View(stream, sanctum)))
              case Refused => r == Sinned(Blasphemy) && stream.received == old(stream.received)
              case Gone(s) => r == Sinned(Disconnected) && View(stream, sanctum) == s
              case Blocked(s) => r == WouldBlock && View(stream, sanctum) == s
              case Filled(s) => r == Read && View(stream, sanctum) == s
    {
      S.RoomIsMade(View(stream, sanctum));
      var ok := MakeRoom(stream, sanctum);
      if !ok {
        return Sinned(Blasphemy);
      }
      r := ReadInto(stream, sanctum);
    }

    /** Takes bytes off the window. */
    method Consume(n: nat)
      requires InBounds() && n <= writeIdx - readIdx
      modifies this`readIdx
      ensures InBounds() && readIdx == old(readIdx) + n && Window() == old(Window())[n..]
    {
      readIdx := readIdx + n;
    }

    /** A good round agrees with s in everything, a failed one in what was received and granted. */
    ghost predicate Agrees(round: S.Round, halt: Option<S.Outcome>, stream: Stream, sanctum: Sanctum)
      requires InBounds()
      reads this, backlog, stream, sanctum
    {
      match round
      case Again(s) => halt == None && View(stream, sanctum) == s
      case Halt(outcome, s) =>
        && halt == Some(outcome)
        && (outcome.Fine? ==> View(stream, sanctum) == s)
        && stream.received == s.received && sanctum.granted == s.granted
    }

    /** Reads more before the next round. */
    method ReadMore(stream: Stream, ghost sanctum: Sanctum) returns (halt: Option<S.Outcome>)
      requires InBounds() && S.Fits(View(stream, sanctum))
      modifies this`readIdx, this`writeIdx, this`backlog, backlog, stream
      ensures InBounds() && (backlog == old(backlog) || fresh(backlog))
      ensures var s := old(View(stream, sanctum));
              Agrees(S.AfterFill(s, S.FillOnce(s)), halt, stream, sanctum)
    {
      var r := PotentiallyResizeAndRead(stream, sanctum);
      match r {
        case Sinned(sin) => return Some(S.Fail(sin));
        case WouldBlock => return Some(S.Fine);
        case Read => return None;
      }
    }

    /* One method for each arm of the match in wish's loop. */

    method TakeTermCount(stream: Stream, ghost sanctum: Sanctum) returns (halt: Option<S.Outcome>)
      requires InBounds() && S.Valid(View(stream, sanctum))
      requires phase.AwaitingTermCount? && Window() != []
      modifies this`readIdx, this`writeIdx, this`backlog, this`phase, this`expectedTerms, backlog, stream
      ensures InBounds() && (backlog == old(backlog) || fresh(backlog))
      ensures Agrees(S.RoundOf(old(View(stream, sanctum))), halt, stream, sanctum)
    {
      ghost var s := View(stream, sanctum);
      var activeWindow := Window();
      var index := FindCrlf(activeWindow);
      if index.None? {
        halt := ReadMore(stream, sanctum);
        return;
      }
      var n := BytesToUnsigned(activeWindow[..index.value], USIZE_MAX);
      if n.None? {
        return Some(S.Fail(ParseError));
      }
      assert Next(s.reading, s.window) ==
             Took(index.value + 2, Reading(if n.value == 0 then Idle else GraspingMarker, terms, n.value), [], false);
      expectedTerms := n.value;
      if expectedTerms == 0 {
        phase := Idle;
      } else {
        phase := GraspingMarker;
      }
      Consume(index.value + 2);
      assert View(stream, sanctum) == S.Advance(s, Next(s.reading, s.window));
      return None;
    }

    method TakeMarker(stream: Stream, ghost sanctum: Sanctum) returns (halt: Option<S.Outcome>)
      requires InBounds() && S.Valid(View(stream, sanctum))
      requires phase.GraspingMarker? && Window() != []
      modifies this`readIdx, this`writeIdx, this`backlog, this`phase, backlog, stream
      ensures InBounds() && (backlog == old(backlog) || fresh(backlog))
      ensures Agrees(S.RoundOf(old(View(stream, sanctum))), halt, stream, sanctum)
    {
      ghost var s := View(stream, sanctum);
      var isMarker := Window()[0] == DOLLAR;
      Consume(1);
      if isMarker {
        phase := AwaitingBulkStringLength;
        assert View(stream, sanctum) == S.Advance(s, Next(s.reading, s.window));
        return None;
      }
      assert View(stream, sanctum) == S.Advance(s, Next(s.reading, s.window));
      halt := ReadMore(stream, sanctum);
    }

    method TakeBulkStringLength(stream: Stream, ghost sanctum: Sanctum) returns (halt: Option<S.Outcome>)
      requires InBounds() && S.Valid(View(stream, sanctum))
      requires phase.AwaitingBulkStringLength? && Window() != []
      modifies this`readIdx, this`writeIdx, this`backlog, this`phase, backlog, stream
      ensures InBounds() && (backlog == old(backlog) || fresh(backlog))
      ensures Agrees(S.RoundOf(old(View(stream, sanctum))), halt, stream, sanctum)
    {
      ghost var s := View(stream, sanctum);
      var activeWindow := Window();
      var index := FindCrlf(activeWindow);
      if index.None? {
        halt := ReadMore(stream, sanctum);
        return;
      }
      var n := BytesToUnsigned(activeWindow[..index.value], USIZE_MAX);
      if n.None? {
        return Some(S.Fail(ParseError));
      }
      phase := AwaitingBulkString(n.value);
      Consume(index.value + 2);
      assert View(stream, sanctum) == S.Advance(s, Next(s.reading, s.window));
      return None;
    }

    method TakeBulkString(stream: Stream, sanctum: Sanctum) returns (halt: Option<S.Outcome>)
      requires InBounds() && S.Valid(View(stream, sanctum))
      requires phase.AwaitingBulkString? && Window() != []
      modifies this`readIdx, this`writeIdx, this`backlog, this`phase, this`terms, backlog, stream, sanctum
      ensures InBounds() && (backlog == old(backlog) || fresh(backlog))
      ensures Agrees(S.RoundOf(old(View(stream, sanctum))), halt, stream, sanctum)
    {
      ghost var s := View(stream, sanctum);
      BulkStringRound(s);
      var activeWindow := Window();
      var len := phase.len;
      if |activeWindow| < WrapUsize(len + 2) {
        halt := ReadMore(stream, sanctum);
        return;
      }
      if len + 1 >= |activeWindow| {
        return Some(S.Fail(Panic));
      }
      if activeWindow[len] != CR || activeWindow[len + 1] != LF {
        return Some(S.Fail(Blasphemy));
      }
      Consume(len + 2);
      AddTerm(activeWindow[..len], sanctum);
      assert View(stream, sanctum) == S.Advance(s, Next(s.reading, s.window));
      return None;
    }

    /** A command with all its terms is granted. */
    method AddTerm(term: Bytes, sanctum: Sanctum)
      requires |terms| < expectedTerms
      modifies this`terms, this`phase, sanctum
      ensures old(|terms|) + 1 == expectedTerms ==>
                phase == Idle && terms == [] && sanctum.granted == old(sanctum.granted) + [old(terms) + [term]]
      ensures old(|terms|) + 1 != expectedTerms ==>
                phase == GraspingMarker && terms == old(terms) + [term] && sanctum.granted == old(sanctum.granted)
    {
      terms := terms + [term];
      phase := GraspingMarker;
      if |terms| == expectedTerms {
        var taken := terms;
        terms := [];
        sanctum.Grant(taken);
        phase := Idle;
      }
    }

    /** One pass through the body of the loop. */
    method Round(stream: Stream, sanctum: Sanctum) returns (halt: Option<S.Outcome>)
      requires InBounds() && S.Valid(View(stream, sanctum))
      modifies this, backlog, stream, sanctum
      ensures InBounds() && (backlog == old(backlog) || fresh(backlog))
      ensures Agrees(S.RoundOf(old(View(stream, sanctum))), halt, stream, sanctum)
    {
      if readIdx == writeIdx {
        return Some(S.Fine);
      }
      match phase {
        case Idle =>
          ghost var s := View(stream, sanctum);
          if Window()[0] != STAR {
            return Some(S.Fail(Blasphemy));
          }
          phase := AwaitingTermCount;
          Consume(1);
          assert View(stream, sanctum) == S.Advance(s, Next(s.reading, s.window));
          return None;
        case AwaitingTermCount =>
          halt := TakeTermCount(stream, sanctum);
        case GraspingMarker =>
          halt := TakeMarker(stream, sanctum);
        case AwaitingBulkStringLength =>
          halt := TakeBulkStringLength(stream, sanctum);
        case AwaitingBulkString(_) =>
          halt := TakeBulkString(stream, sanctum);
      }
    }

    /** The loop of wish. It terminates because every round that goes on lowers the work left. */
    method Serve(stream: Stream, sanctum: Sanctum) returns (r: S.Outcome)
      requires InBounds() && S.Valid(View(stream, sanctum))
      modifies this, backlog, stream, sanctum
      ensures InBounds() && (backlog == old(backlog) || fresh(backlog))
      ensures Agrees(S.Halt(S.Loop(old(View(stream, sanctum))).0, S.Loop(old(View(stream, sanctum))).1),
                     Some(r), stream, sanctum)
    {
      ghost var s0 := View(stream, sanctum);
      while true
        invariant InBounds() && (backlog == old(backlog) || fresh(backlog))
        invariant S.Valid(View(stream, sanctum))
        invariant S.Loop(View(stream, sanctum)) == S.Loop(s0)
        decreases S.Work(View(stream, sanctum))
      {
        S.RoundIsSound(View(stream, sanctum));
        var halt := Round(stream, sanctum);
        if halt.Some? {
          return halt.value;
        }
      }
    }

    /** The first read, then the loop. */
    method Attend(stream: Stream, sanctum: Sanctum) returns (r: S.Outcome)
      requires InBounds() && S.Valid(View(stream, sanctum))
      modifies this, backlog, stream, sanctum
      ensures InBounds() && (backlog == old(backlog) || fresh(backlog))
      ensures Agrees(S.Halt(S.Wish(old(View(stream, sanctum))).0, S.Wish(old(View(stream, sanctum))).1),
                     Some(r), stream, sanctum)
    {
      S.FillIsSound(View(stream, sanctum));
      var halt := ReadMore(stream, sanctum);
      if halt.Some? {
        return halt.value;
      }
      r := Serve(stream, sanctum);
    }
  }

  class Pilgrim {
    var stream: Stream
    var virtue: Virtue?

    constructor (stream: Stream)
      ensures this.stream == stream && virtue == null
    {
      this.stream := stream;
      virtue := null;
    }

    /** Everything wish may write. */
    ghost function Repr(): set<object?>
      reads this, virtue
    {
      if virtue == null then {this, stream} else {this, stream, virtue, virtue.backlog}
    }

    ghost predicate Valid(sanctum: Sanctum)
      reads Repr(), sanctum
    {
      virtue != null ==> virtue.InBounds() && S.Valid(virtue.View(stream, sanctum))
    }

    /** A pilgrim without a Virtue stands for one with a new Virtue. */
    ghost function View(sanctum: Sanctum): S.Session
      requires Valid(sanctum)
      reads Repr(), sanctum
    {
      if virtue == null
      then S.Open(stream.script).(received := stream.received, granted := sanctum.granted)
      else virtue.View(stream, sanctum)
    }

    /** wish: one call on a readable connection. */
    method Wish(sanctum: Sanctum) returns (r: S.Outcome)
      requires Valid(sanctum)
      modifies Repr(), sanctum
      ensures stream == old(stream) && fresh(Repr() - old(Repr()))
      ensures r == S.Wish(old(View(sanctum))).0
      ensures r.Fine? ==> Valid(sanctum) && View(sanctum) == S.Wish(old(View(sanctum))).1
      ensures stream.received == S.Wish(old(View(sanctum))).1.received
      ensures sanctum.granted == S.Wish(old(View(sanctum))).1.granted
    {
      ghost var s := View(sanctum);
      if virtue == null {
        virtue := new Virtue();
      }
      var v: Virtue := virtue;
      assert v.View(stream, sanctum) == s;
      S.WishIsSound(s);
      r := v.Attend(stream, sanctum);
    }
  }
}
