/** The writer thread of src/egress.rs: decrees in, bytes out, one stream for each client. */
module Egress {
  import opened Bytes
  import opened Numbers
  import opened Resp
  import opened Replies
  import opened PubSub
  import Keyspace
  import Souls
  import opened Temples

  /** The values one decree sends to client t, one part for each write. A publisher that is subscribed to
      its own channel gets the message first, then the count. */
  function Parts(d: Decree, t: Token): seq<seq<Resp>> {
    match d
    case Welcome(_) => []
    case Goodbye(_) => []
    case Deliver(token, response) => if token == t then [Values(response)] else []
    case Broadcast(token, event, message, clients) =>
      Copies(event, message, clients, t) + if token == t then [[Integer(|clients|)]] else []
  }

  /** One copy of the message for each mention of t. */
  function Copies(event: Bytes, message: Bytes, clients: seq<Token>, t: Token): seq<seq<Resp>> {
    if clients == [] then []
    else
      var n := |clients| - 1;
      Copies(event, message, clients[..n], t) + if clients[n] == t then [[MessageValue(event, message)]] else []
  }

  function Flat(parts: seq<seq<Resp>>): seq<Resp> {
    if parts == [] then [] else Flat(parts[..|parts| - 1]) + parts[|parts| - 1]
  }

  /** The RESP2 values one decree sends to client t. */
  function Frames(d: Decree, t: Token): seq<Resp> {
    Flat(Parts(d, t))
  }

  /* ----- sockets ----- */

  /** What becomes of a write: it is taken whole, or fails after some of its bytes. */
  datatype Fate = Whole | Cut(n: nat)

  /** The bytes a client's socket has taken, the fates of the writes to come, all of them whole once the
      list is used up, and how many writes have failed. */
  datatype Socket = Socket(written: Bytes, fates: seq<Fate>, failures: nat)

  /** write_all. Nothing can go wrong with no bytes. */
  function Write(s: Socket, bytes: Bytes): Socket {
    if bytes == [] || s.fates == [] then s.(written := s.written + bytes)
    else match s.fates[0]
      case Whole => Socket(s.written + bytes, s.fates[1..], s.failures)
      case Cut(n) =>
        Socket(s.written + bytes[..if n < |bytes| then n else |bytes| - 1], s.fates[1..], s.failures + 1)
  }

  function WriteParts(s: Socket, parts: seq<seq<Resp>>): Socket {
    if parts == [] then s else Write(WriteParts(s, parts[..|parts| - 1]), WireAll(parts[|parts| - 1]))
  }

  /** The sockets after a decree. A failed write does not end a stream: only a farewell does. */
  function Obey(fates: Token -> seq<Fate>, sockets: map<Token, Socket>, d: Decree): map<Token, Socket> {
    match d
    case Welcome(token) => sockets[token := Socket([], fates(token), 0)]
    case Goodbye(token) => sockets - {token}
    case _ => map t | t in sockets :: WriteParts(sockets[t], Parts(d, t))
  }

  function ObeyAll(fates: Token -> seq<Fate>, ds: seq<Decree>): map<Token, Socket> {
    if ds == [] then map[] else Obey(fates, ObeyAll(fates, ds[..|ds| - 1]), ds[|ds| - 1])
  }

  /** t's socket is among them: it has been welcomed, and no farewell has come since. */
  predicate Open(ds: seq<Decree>, t: Token) {
    ds != [] &&
    var d := ds[|ds| - 1];
    d == Welcome(t) || (d != Goodbye(t) && Open(ds[..|ds| - 1], t))
  }

  /** What client t's socket has taken, open or closed again. */
  function Stream(fates: Token -> seq<Fate>, ds: seq<Decree>, t: Token): Socket {
    if ds == [] then Socket([], [], 0)
    else
      var before, d := ds[..|ds| - 1], ds[|ds| - 1];
      if d == Welcome(t) then Socket([], fates(t), 0)
      else if Open(before, t) then WriteParts(Stream(fates, before, t), Parts(d, t))
      else Stream(fates, before, t)
  }

  /** The values sent to client t while its socket was open, since it was last welcomed. */
  function Sent(ds: seq<Decree>, t: Token): seq<Resp> {
    if ds == [] then []
    else
      var before, d := ds[..|ds| - 1], ds[|ds| - 1];
      if d == Welcome(t) then []
      else if Open(before, t) then Sent(before, t) + Frames(d, t)
      else Sent(before, t)
  }

  /** The open sockets are exactly those, and hold just that. */
  lemma {:induction false} SocketsAreStreams(fates: Token -> seq<Fate>, ds: seq<Decree>, t: Token)
    ensures t in ObeyAll(fates, ds) <==> Open(ds, t)
    ensures Open(ds, t) ==> ObeyAll(fates, ds)[t] == Stream(fates, ds, t)
  {
    if ds != [] {
      SocketsAreStreams(fates, ds[..|ds| - 1], t);
    }
  }

  /** Whom the event loop is told of: a client that has gone, and one whose reply could not be written. A
      message that could not be written is not reported. */
  function ToldOf(sockets: map<Token, Socket>, d: Decree): seq<Token> {
    match d
    case Goodbye(token) => [token]
    case Deliver(token, response) =>
      if token in sockets && Write(sockets[token], WireAll(Values(response))).failures > sockets[token].failures
      then [token] else []
    case _ => []
  }

  class Writer {
    var sockets: map<Token, Socket>
    const fates: Token -> seq<Fate>
    const printer: Printer

    constructor (fates: Token -> seq<Fate>)
      ensures sockets == map[] && this.fates == fates && fresh(printer)
    {
      sockets := map[];
      this.fates := fates;
      printer := new Printer();
    }

    method WriteTo(t: Token, bytes: Bytes) returns (ok: bool)
      requires t in sockets
      modifies this`sockets
      ensures sockets == old(sockets)[t := Write(old(sockets)[t], bytes)]
      ensures ok <==> sockets[t].failures == old(sockets)[t].failures
    {
      var socket := Write(sockets[t], bytes);
      ok := socket.failures == sockets[t].failures;
      sockets := sockets[t := socket];
    }

    /** One turn of the loop, whatever becomes of its writes. */
    method Serve(d: Decree) returns (notices: seq<Token>)
      modifies this`sockets, printer
      ensures sockets == Obey(fates, old(sockets), d)
      ensures notices == ToldOf(old(sockets), d)
    {
      notices := [];
      match d {
        case Welcome(token) => sockets := sockets[token := Socket([], fates(token), 0)];
        case Goodbye(token) =>
          sockets := sockets - {token};
          notices := [token];
        case Deliver(token, response) =>
          notices := ServeDeliver(token, response);
        case Broadcast(token, event, message, clients) =>
          ServeBroadcast(token, event, message, clients);
      }
    }

    method ServeDeliver(token: Token, response: Response) returns (notices: seq<Token>)
      modifies this`sockets, printer
      ensures sockets == Obey(fates, old(sockets), Deliver(token, response))
      ensures notices == ToldOf(old(sockets), Deliver(token, response))
    {
      notices := [];
      ReplyObeyed(fates, sockets, token, response);
      if token in sockets {
        printer.Send(response);
        var ok := WriteTo(token, printer.response);
        notices := if ok then [] else [token];
      }
    }

    method ServeBroadcast(token: Token, event: Bytes, message: Bytes, clients: seq<Token>)
      modifies this`sockets
      ensures sockets == Obey(fates, old(sockets), Broadcast(token, event, message, clients))
    {
      var response := MessageFrame(event, message);
      SendCopies(event, message, clients, response);
      ghost var before := sockets;
      if token in sockets {
        response := Ascii(":");
        response := response + Decimal(|clients|);
        response := response + Ascii("\r\n");
        CountFrame(|clients|);
        var _ := WriteTo(token, response);
      }
      forall t | t in sockets
        ensures sockets[t] == WriteParts(old(sockets)[t], Parts(Broadcast(token, event, message, clients), t))
      {
        assert before[t] == WriteParts(old(sockets)[t], Copies(event, message, clients, t));
        ThenCount(old(sockets)[t], token, event, message, clients, t);
      }
    }

    method SendCopies(event: Bytes, message: Bytes, clients: seq<Token>, response: Bytes)
      requires response == Wire(MessageValue(event, message))
      modifies this`sockets
      ensures sockets.Keys == old(sockets).Keys
      ensures forall t :: t in sockets ==>
                sockets[t] == WriteParts(old(sockets)[t], Copies(event, message, clients, t))
    {
      for i := 0 to |clients|
        invariant sockets.Keys == old(sockets).Keys
        invariant forall t :: t in sockets ==>
                    sockets[t] == WriteParts(old(sockets)[t], Copies(event, message, clients[..i], t))
      {
        forall t | t in sockets
          ensures WriteParts(old(sockets)[t], Copies(event, message, clients[..i + 1], t)) ==
                  if t == clients[i] then Write(sockets[t], response) else sockets[t]
        {
          OneMoreCopy(old(sockets)[t], event, message, clients, i, t);
        }
        if clients[i] in sockets {
          var _ := WriteTo(clients[i], response);
        }
      }
      assert clients[..|clients|] == clients;
    }
  }

  /** The message frame, from the literal header and the two sized strings. */
  method MessageFrame(event: Bytes, message: Bytes) returns (response: Bytes)
    ensures response == Wire(MessageValue(event, message))
  {
    response := Ascii("*3\r\n$7\r\nmessage\r\n$");
    response := response + Decimal(|event|);
    response := response + Ascii("\r\n");
    response := response + event;
    response := response + Ascii("\r\n$");
    response := response + Decimal(|message|);
    response := response + Ascii("\r\n");
    response := response + message;
    response := response + Ascii("\r\n");
    LineEnds();
    FrameGrouped(Ascii("*3\r\n$7\r\nmessage\r\n$"), event, message);
    MessageHeader();
    MessageWire(event, message);
  }

  lemma LineEnds()
    ensures Ascii("\r\n") == CRLF && Ascii("\r\n$") == CRLF + [DOLLAR]
  {
  }

  lemma FrameGrouped(h: Bytes, event: Bytes, message: Bytes)
    ensures h + Decimal(|event|) + CRLF + event + (CRLF + [DOLLAR]) + Decimal(|message|) + CRLF + message + CRLF ==
            h + (Sized(event) + ([DOLLAR] + Sized(message)))
  {
    Ungrouped(h, Decimal(|event|), event, Decimal(|message|), message);
  }

  lemma Ungrouped(h: Bytes, m: Bytes, x: Bytes, n: Bytes, y: Bytes)
    ensures h + m + CRLF + x + (CRLF + [DOLLAR]) + n + CRLF + y + CRLF ==
            h + ((m + CRLF + x + CRLF) + ([DOLLAR] + (n + CRLF + y + CRLF)))
  {
  }

  lemma CountFrame(n: nat)
    ensures Ascii(":") + Decimal(n) + Ascii("\r\n") == Wire(Integer(n)) == WireAll([Integer(n)])
  {
    assert Ascii(":") == [COLON] && Ascii("\r\n") == CRLF;
    assert [Integer(n)][1..] == [];
  }

  /** A reply is one write to its client and none to any other. */
  lemma OnePart(sockets: map<Token, Socket>, values: seq<Resp>)
    ensures forall t :: t in sockets ==> WriteParts(sockets[t], []) == sockets[t]
    ensures forall t :: t in sockets ==> WriteParts(sockets[t], [values]) == Write(sockets[t], WireAll(values))
  {
    assert [values][..0] == [];
  }

  lemma ReplyObeyed(fates: Token -> seq<Fate>, sockets: map<Token, Socket>, token: Token, response: Response)
    ensures Obey(fates, sockets, Deliver(token, response)) ==
            if token in sockets then sockets[token := Write(sockets[token], WireAll(Values(response)))] else sockets
  {
    OnePart(sockets, Values(response));
  }

  lemma OnePartMore(s: Socket, parts: seq<seq<Resp>>, part: seq<Resp>)
    ensures WriteParts(s, parts + [part]) == Write(WriteParts(s, parts), WireAll(part))
    ensures Flat(parts + [part]) == Flat(parts) + part
  {
    assert (parts + [part])[..|parts|] == parts;
  }

  lemma OneMoreCopy(s: Socket, event: Bytes, message: Bytes, clients: seq<Token>, i: nat, t: Token)
    requires i < |clients|
    ensures WriteParts(s, Copies(event, message, clients[..i + 1], t)) ==
            var before := WriteParts(s, Copies(event, message, clients[..i], t));
            if t == clients[i] then Write(before, Wire(MessageValue(event, message))) else before
  {
    var copies, v := Copies(event, message, clients[..i], t), MessageValue(event, message);
    assert clients[..i + 1][..i] == clients[..i];
    if clients[i] == t {
      OnePartMore(s, copies, [v]);
      assert WireAll([v]) == Wire(v) + WireAll([]);
    } else {
      assert copies + [] == copies;
    }
  }

  lemma ThenCount(s: Socket, token: Token, event: Bytes, message: Bytes, clients: seq<Token>, t: Token)
    ensures WriteParts(s, Parts(Broadcast(token, event, message, clients), t)) ==
            var before := WriteParts(s, Copies(event, message, clients, t));
            if token == t then Write(before, WireAll([Integer(|clients|)])) else before
  {
    var copies := Copies(event, message, clients, t);
    if token == t {
      OnePartMore(s, copies, [Integer(|clients|)]);
    } else {
      assert copies + [] == copies;
    }
  }

  /* ----- what clients read ----- */

  predicate Prints(d: Decree) {
    match d
    case Deliver(_, response) => InRange(response)
    case Broadcast(_, event, message, clients) =>
      |event| <= U64_MAX && |message| <= U64_MAX && |clients| <= U64_MAX
    case _ => true
  }

  predicate AllPrint(parts: seq<seq<Resp>>) {
    forall i :: 0 <= i < |parts| ==> AllPrintable(parts[i])
  }

  lemma {:induction false} CopiesPrint(event: Bytes, message: Bytes, clients: seq<Token>, t: Token)
    requires |event| <= U64_MAX && |message| <= U64_MAX
    ensures AllPrint(Copies(event, message, clients, t))
  {
    if clients != [] {
      CopiesPrint(event, message, clients[..|clients| - 1], t);
      PrintableAt(MessageValue(event, message).items);
      PrintableAt([MessageValue(event, message)]);
    }
  }

  lemma PartsPrint(d: Decree, t: Token)
    requires Prints(d)
    ensures AllPrint(Parts(d, t))
  {
    match d {
      case Deliver(_, response) => RepliesArePrintable(response);
      case Broadcast(_, event, message, clients) =>
        CopiesPrint(event, message, clients, t);
        PrintableAt([Integer(|clients|)]);
      case _ =>
    }
  }

  lemma {:induction false} FlatPrints(parts: seq<seq<Resp>>)
    requires AllPrint(parts)
    ensures AllPrintable(Flat(parts))
  {
    if parts != [] {
      var n := |parts| - 1;
      FlatPrints(parts[..n]);
      WireAllAppend(Flat(parts[..n]), parts[n]);
    }
  }

  /** From s to s' these bytes were to be written: without a failure they were, and each failure cost at
      least one of them. */
  predicate Wrote(s: Socket, s': Socket, bytes: Bytes) {
    && s.failures <= s'.failures
    && (s'.failures == s.failures ==> s'.written == s.written + bytes)
    && |s'.written| + s'.failures <= |s.written| + s.failures + |bytes|
  }

  lemma WriteWrites(s: Socket, bytes: Bytes)
    ensures Wrote(s, Write(s, bytes), bytes)
  {
  }

  lemma WroteOn(s: Socket, s1: Socket, s2: Socket, a: Bytes, b: Bytes)
    requires Wrote(s, s1, a) && Wrote(s1, s2, b)
    ensures Wrote(s, s2, a + b)
  {
    assert s.written + (a + b) == (s.written + a) + b;
  }

  lemma {:induction false} PartsWrite(s: Socket, parts: seq<seq<Resp>>)
    ensures Wrote(s, WriteParts(s, parts), WireAll(Flat(parts)))
  {
    if parts == [] {
      assert s.written + [] == s.written;
    } else {
      var n := |parts| - 1;
      var s1 := WriteParts(s, parts[..n]);
      PartsWrite(s, parts[..n]);
      WireAllAppend(Flat(parts[..n]), parts[n]);
      WriteWrites(s1, WireAll(parts[n]));
      WroteOn(s, s1, WriteParts(s, parts), WireAll(Flat(parts[..n])), WireAll(parts[n]));
    }
  }

  /** The socket of a client that has been sent these values. */
  predicate Carries(s: Socket, sent: seq<Resp>) {
    && AllPrintable(sent)
    && (s.failures == 0 ==> s.written == WireAll(sent))
    && |s.written| + s.failures <= |WireAll(sent)|
  }

  lemma DecreeKeepsCarries(s: Socket, sent: seq<Resp>, d: Decree, t: Token)
    requires Carries(s, sent) && Prints(d)
    ensures Carries(WriteParts(s, Parts(d, t)), sent + Frames(d, t))
  {
    PartsPrint(d, t);
    FlatPrints(Parts(d, t));
    PartsWrite(s, Parts(d, t));
    WireAllAppend(sent, Frames(d, t));
  }

  lemma {:induction false} StreamsCarryWhatWasSent(fates: Token -> seq<Fate>, ds: seq<Decree>, t: Token)
    requires forall i :: 0 <= i < |ds| ==> Prints(ds[i])
    ensures Carries(Stream(fates, ds, t), Sent(ds, t))
  {
    if ds != [] {
      var before, d := ds[..|ds| - 1], ds[|ds| - 1];
      StreamsCarryWhatWasSent(fates, before, t);
      DecreeKeepsCarries(Stream(fates, before, t), Sent(before, t), d, t);
    }
  }

  /** Whatever decrees the writer has served and whatever became of its writes, a client's stream holds the
      wire form of what was sent to it if and only if no write to it failed. A RESP2 reader then recovers
      exactly those values, in the order of the decrees: no reply or pushed message can be taken for part of
      another. */
  lemma {:induction false} ClientsReadWhatWasSent(fates: Token -> seq<Fate>, ds: seq<Decree>, t: Token)
    requires forall i :: 0 <= i < |ds| ==> Prints(ds[i])
    ensures var s := Stream(fates, ds, t);
            && (s.written == WireAll(Sent(ds, t)) <==> s.failures == 0)
            && (s.failures == 0 ==> ReadAll(s.written) == Some(Sent(ds, t)))
  {
    StreamsCarryWhatWasSent(fates, ds, t);
    ReadAllWire(Sent(ds, t));
  }

  /* ----- farewells ----- */

  /** A decree comes in turn: a welcome for a new client, anything else for clients welcomed before. */
  predicate InTurn(before: seq<Decree>, d: Decree) {
    if d.Welcome? then d !in before
    else Welcome(d.token) in before && (d.Broadcast? ==> forall c :: c in d.clients ==> Welcome(c) in before)
  }

  predicate Orderly(ds: seq<Decree>) {
    ds != [] ==> Orderly(ds[..|ds| - 1]) && InTurn(ds[..|ds| - 1], ds[|ds| - 1])
  }

  lemma {:induction false} OrderlyPrefix(ds: seq<Decree>, n: nat)
    requires Orderly(ds) && n <= |ds|
    ensures Orderly(ds[..n]) && (n < |ds| ==> InTurn(ds[..n], ds[n]))
  {
    if n == |ds| {
      assert ds[..n] == ds;
    } else if n < |ds| - 1 {
      OrderlyPrefix(ds[..|ds| - 1], n);
      assert ds[..|ds| - 1][..n] == ds[..n];
    }
  }

  /** A socket is open from its client's welcome to its farewell. */
  lemma {:induction false} OpenUntilFarewell(ds: seq<Decree>, t: Token)
    requires Orderly(ds)
    ensures Goodbye(t) in ds ==> Welcome(t) in ds
    ensures Open(ds, t) <==> Welcome(t) in ds && Goodbye(t) !in ds
  {
    if ds != [] {
      OpenUntilFarewell(ds[..|ds| - 1], t);
      LastOrBefore(ds, Welcome(t));
      LastOrBefore(ds, Goodbye(t));
    }
  }

  lemma LastOrBefore(ds: seq<Decree>, d: Decree)
    requires ds != []
    ensures d in ds <==> d in ds[..|ds| - 1] || d == ds[|ds| - 1]
  {
    assert ds == ds[..|ds| - 1] + [ds[|ds| - 1]];
  }

  /** A decree for a welcomed client is written to its socket if and only if no farewell precedes it. */
  lemma WrittenUnlessFarewell(fates: Token -> seq<Fate>, ds: seq<Decree>, i: nat)
    requires Orderly(ds) && i < |ds| && !ds[i].Welcome?
    ensures ds[i].token in ObeyAll(fates, ds[..i]) <==> Goodbye(ds[i].token) !in ds[..i]
  {
    OrderlyPrefix(ds, i);
    OpenUntilFarewell(ds[..i], ds[i].token);
    SocketsAreStreams(fates, ds[..i], ds[i].token);
  }

  /** How many decrees precede client t's farewell: all of them, if there is none. */
  function UntilFarewell(ds: seq<Decree>, t: Token): (n: nat)
    ensures n <= |ds|
    ensures n == |ds| <==> Goodbye(t) !in ds
  {
    if ds == [] then 0
    else
      var m := UntilFarewell(ds[..|ds| - 1], t);
      LastOrBefore(ds, Goodbye(t));
      if m == |ds| - 1 && ds[m] != Goodbye(t) then |ds| else m
  }

  /** Everything decrees would send to client t. */
  function AllFrames(ds: seq<Decree>, t: Token): seq<Resp> {
    if ds == [] then [] else AllFrames(ds[..|ds| - 1], t) + Frames(ds[|ds| - 1], t)
  }

  lemma {:induction false} NoCopies(event: Bytes, message: Bytes, clients: seq<Token>, t: Token)
    requires t !in clients
    ensures Copies(event, message, clients, t) == []
  {
    if clients != [] {
      NoCopies(event, message, clients[..|clients| - 1], t);
    }
  }

  lemma NothingForStrangers(before: seq<Decree>, d: Decree, t: Token)
    requires InTurn(before, d) && Welcome(t) !in before
    ensures Frames(d, t) == []
  {
    if d.Broadcast? {
      NoCopies(d.event, d.message, d.clients, t);
    }
  }

  /** Nothing is sent to a client before its welcome. */
  lemma {:induction false} NothingBeforeWelcome(ds: seq<Decree>, t: Token)
    requires Orderly(ds) && Welcome(t) !in ds
    ensures AllFrames(ds, t) == [] && Sent(ds, t) == [] && !Open(ds, t)
  {
    if ds != [] {
      var before := ds[..|ds| - 1];
      LastOrBefore(ds, Welcome(t));
      NothingBeforeWelcome(before, t);
      NothingForStrangers(before, ds[|ds| - 1], t);
    }
  }

  /** The decrees up to client t's farewell. */
  function BeforeFarewell(ds: seq<Decree>, t: Token): seq<Decree> {
    ds[..UntilFarewell(ds, t)]
  }

  lemma FarewellOneMore(before: seq<Decree>, d: Decree, t: Token)
    ensures BeforeFarewell(before + [d], t) ==
            if Goodbye(t) in before then BeforeFarewell(before, t)
            else if d == Goodbye(t) then before else before + [d]
    ensures Goodbye(t) !in before ==> BeforeFarewell(before, t) == before
  {
    var ds := before + [d];
    assert ds[..|before|] == before && ds[..|ds|] == ds;
    if Goodbye(t) in before {
      assert ds[..UntilFarewell(before, t)] == before[..UntilFarewell(before, t)];
    } else {
      assert before[..|before|] == before;
    }
  }

  /** What a client has been sent grows by the last decree's frames, unless it has a farewell behind it. */
  lemma SentOneMore(before: seq<Decree>, d: Decree, t: Token)
    requires Orderly(before) && InTurn(before, d)
    ensures Sent(before + [d], t) ==
            if Goodbye(t) in before then Sent(before, t) else Sent(before, t) + Frames(d, t)
  {
    assert (before + [d])[..|before|] == before;
    OpenUntilFarewell(before, t);
    if Welcome(t) !in before {
      NothingBeforeWelcome(before, t);
      NothingForStrangers(before, d, t);
      assert Sent(before, t) + [] == Sent(before, t);
    }
  }

  lemma AllFramesOneMore(before: seq<Decree>, d: Decree, t: Token)
    ensures AllFrames(before + [d], t) == AllFrames(before, t) + Frames(d, t)
  {
    assert (before + [d])[..|before|] == before;
  }

  /** The last decree's frames are among those kept, unless a farewell precedes it. */
  lemma KeptOneMore(before: seq<Decree>, d: Decree, t: Token, kept: seq<Decree>, kept': seq<Decree>, frames: seq<Resp>)
    requires frames == AllFrames(kept, t)
    requires Goodbye(t) !in before ==> kept == before && kept' == if d == Goodbye(t) then before else before + [d]
    requires Goodbye(t) in before ==> kept' == kept
    ensures AllFrames(kept', t) == if Goodbye(t) in before then frames else frames + Frames(d, t)
  {
    if Goodbye(t) !in before {
      if d == Goodbye(t) {
        assert frames + [] == frames;
      } else {
        AllFramesOneMore(before, d, t);
      }
    }
  }

  /** What is sent to a client is everything meant for it up to its farewell, and nothing after. */
  lemma {:induction false} SentUntilFarewell(ds: seq<Decree>, t: Token)
    requires Orderly(ds)
    ensures Sent(ds, t) == AllFrames(BeforeFarewell(ds, t), t)
  {
    if ds != [] {
      var before, d := ds[..|ds| - 1], ds[|ds| - 1];
      SentUntilFarewell(before, t);
      assert ds == before + [d];
      FarewellOneMore(before, d, t);
      SentOneMore(before, d, t);
      KeptOneMore(before, d, t, BeforeFarewell(before, t), BeforeFarewell(ds, t), Sent(before, t));
    }
  }

  /* ----- which requests are answered ----- */

  /** Outside the database commands every request is answered to its client, but for exactly the SUBSCRIBE
      that names nothing new. */
  lemma AnsweredUnlessNothingNew(history: seq<Action>, t: Token, c: Temples.ClientCommand, d: Decree)
    requires !c.Database? && Temples.Answers(history, t, c, d)
    ensures Frames(d, t) == [] <==>
            c.Subscribe? && forall e :: e in c.events ==> e in ChannelsOf(history, t)
  {
    var held := ChannelsOf(history, t);
    match c {
      case Subscribe(events) =>
        NothingJoined(held, events);
        OneFrame(t, d.response);
      case Unsubscribe(events) =>
        OneFrame(t, d.response);
      case Publish(_, _) =>
        OnePartMore(Socket([], [], 0), Copies(d.event, d.message, d.clients, t), [Integer(|d.clients|)]);
    }
  }

  lemma OneFrame(t: Token, response: Response)
    ensures Frames(Deliver(t, response), t) == Values(response)
  {
    OnePartMore(Socket([], [], 0), [], Values(response));
    assert [] + [Values(response)] == [Values(response)];
    assert [] + Values(response) == Values(response);
  }

  lemma {:induction false} NothingJoined(held: set<Bytes>, events: seq<Bytes>)
    ensures Joined(held, events) == [] <==> forall e :: e in events ==> e in held
  {
    var report := Joined(held, events);
    forall e ensures Reported(report, e) <==> e in events && e !in held {
      JoinedNames(held, events, e);
    }
    if report != [] {
      assert Reported(report, report[0].0);
    }
  }

  /** A database command is answered by one value, refused or not. */
  lemma DatabaseIsAnswered(history: seq<Action>, t: Token, c: Temples.ClientCommand, d: Decree,
                           before: Keyspace.Keyspace, after: Keyspace.Keyspace)
    requires c.Database? && Executes(history, t, c, d, before, after)
    ensures |Frames(d, t)| == 1
  {
    OneFrame(t, d.response);
    if ChannelsOf(history, t) == {} {
      ReplyIsOneValue(before, c.request, c.now);
    }
  }

  predicate OneValue(r: Keyspace.Reply) {
    r.Exactly? ==> |Values(r.response)| == 1
  }

  lemma ReplyIsOneValue(m: Keyspace.Keyspace, c: Keyspace.Request, now: Keyspace.Time)
    ensures OneValue(Keyspace.Exec(m, c, now).1)
  {
    if c.At? && !Keyspace.PopsWrongType(m, c.key, c.op) {
      ActIsOneValue(c.op, Keyspace.Live(m, c.key, now), now);
    }
  }

  lemma ActIsOneValue(op: Keyspace.Op, e: Option<Keyspace.Entry>, now: Keyspace.Time)
    ensures OneValue(Keyspace.Act(op, e, now).1)
  {
    match op {
      case Put(_, _) =>
      case OnString(_) =>
      case OnCounter(_) =>
      case OnHash(_) =>
      case Push(_, _) =>
      case Pop(_, _) =>
      case OnItems(_) =>
      case OnSet(_) =>
      case OnDeadline(_) =>
    }
  }

  /** SUBSCRIBE to the same channel twice: the second is answered with no bytes at all. */
  lemma SecondSubscribeIsSilent(t: Token, e: Bytes, d: Decree)
    requires Temples.Answers([Action.Subscribe(t, [e])], t, Temples.ClientCommand.Subscribe([e]), d)
    ensures Parts(d, t) == [[]] && Frames(d, t) == []
  {
    var history := [Action.Subscribe(t, [e])];
    assert history[..0] == [] && e in Keyspace.SetOf([e]);
    assert (t, e) in Relation(history);
    AnsweredUnlessNothingNew(history, t, Temples.ClientCommand.Subscribe([e]), d);
    OneFrame(t, d.response);
  }

  lemma LastClient(clients: seq<Token>, t: Token)
    requires clients != [] && NoRepeats(clients)
    ensures var n := |clients| - 1;
            && NoRepeats(clients[..n]) && clients[n] !in clients[..n]
            && (t in clients <==> t in clients[..n] || t == clients[n])
  {
    var n := |clients| - 1;
    assert clients == clients[..n] + [clients[n]];
  }

  lemma {:induction false} OneCopyEach(event: Bytes, message: Bytes, clients: seq<Token>, t: Token)
    requires NoRepeats(clients)
    ensures Flat(Copies(event, message, clients, t)) == if t in clients then [MessageValue(event, message)] else []
  {
    if clients != [] {
      var n := |clients| - 1;
      var before, v := Copies(event, message, clients[..n], t), MessageValue(event, message);
      LastClient(clients, t);
      OneCopyEach(event, message, clients[..n], t);
      OnePartMore(Socket([], [], 0), before, [v]);
      assert before + [] == before && [] + [v] == [v];
    }
  }

  /** A published message reaches each of its clients as one frame of three bulk strings, and after that its
      publisher is told how many they are. */
  lemma BroadcastIsSent(token: Token, event: Bytes, message: Bytes, clients: seq<Token>, t: Token)
    requires NoRepeats(clients)
    ensures Frames(Broadcast(token, event, message, clients), t) ==
            (if t in clients
             then [Array([Bulk(Some(Ascii("message"))), Bulk(Some(event)), Bulk(Some(message))])]
             else []) +
            (if t == token then [Integer(|clients|)] else [])
  {
    OneCopyEach(event, message, clients, t);
    CountLast(Copies(event, message, clients, t), if t == token then [[Integer(|clients|)]] else []);
  }

  lemma CountLast(parts: seq<seq<Resp>>, last: seq<seq<Resp>>)
    requires |last| <= 1
    ensures Flat(parts + last) == Flat(parts) + if last == [] then [] else last[0]
  {
    if last == [] {
      assert parts + last == parts && Flat(parts) + [] == Flat(parts);
    } else {
      assert last == [last[0]];
      OnePartMore(Socket([], [], 0), parts, last[0]);
    }
  }

  /** The event loop is told of a client exactly when it takes its farewell or a reply to it could not be
      written. */
  lemma ToldOfFailures(fates: Token -> seq<Fate>, sockets: map<Token, Socket>, d: Decree, t: Token)
    ensures t in ToldOf(sockets, d) <==>
            || d == Goodbye(t)
            || (d.Deliver? && d.token == t && t in sockets && t in Obey(fates, sockets, d) &&
                Obey(fates, sockets, d)[t].failures > sockets[t].failures)
  {
    if d.Deliver? {
      ReplyObeyed(fates, sockets, d.token, d.response);
    }
  }

  /* ----- torn replies ----- */

  /** A failed write leaves its stream in place, and the next reply goes out behind the torn one: OK, cut
      after its third byte, and then the number 1 are read as one reply, OK:1. */
  lemma TornReply(fates: Token -> seq<Fate>, t: Token)
    requires fates(t) == [Cut(3)]
    ensures var ds := [Welcome(t), Deliver(t, InfoOk), Deliver(t, Number(1))];
            && Sent(ds, t) == [Simple(Ascii("OK")), Integer(1)]
            && t in ObeyAll(fates, ds)
            && ReadAll(ObeyAll(fates, ds)[t].written) == Some([Simple(Ascii("OK:1"))])
  {
    TornSent(t);
    TornStream(fates, t);
    TornValue();
    TornRead();
  }

  lemma TornRead()
    ensures ReadAll(WireAll([Simple(Ascii("OK:1"))])) == Some([Simple(Ascii("OK:1"))])
  {
    PlainIsOneLine("OK:1");
    PrintableAt([Simple(Ascii("OK:1"))]);
    ReadAllWire([Simple(Ascii("OK:1"))]);
  }

  lemma SentNext(ds: seq<Decree>, d: Decree, t: Token)
    requires d != Welcome(t) && Open(ds, t)
    ensures Sent(ds + [d], t) == Sent(ds, t) + Frames(d, t)
    ensures d != Goodbye(t) ==> Open(ds + [d], t)
  {
    assert (ds + [d])[..|ds|] == ds;
  }

  lemma TornSent(t: Token)
    ensures Sent([Welcome(t), Deliver(t, InfoOk), Deliver(t, Number(1))], t) == [Simple(Ascii("OK")), Integer(1)]
  {
    assert Sent([Welcome(t)], t) == [];
    SentNext([Welcome(t)], Deliver(t, InfoOk), t);
    OneFrame(t, InfoOk);
    assert [Welcome(t)] + [Deliver(t, InfoOk)] == [Welcome(t), Deliver(t, InfoOk)];
    SentNext([Welcome(t), Deliver(t, InfoOk)], Deliver(t, Number(1)), t);
    OneFrame(t, Number(1));
    assert [Welcome(t), Deliver(t, InfoOk)] + [Deliver(t, Number(1))] ==
           [Welcome(t), Deliver(t, InfoOk), Deliver(t, Number(1))];
  }

  lemma TornStream(fates: Token -> seq<Fate>, t: Token)
    requires fates(t) == [Cut(3)]
    ensures var sockets := ObeyAll(fates, [Welcome(t), Deliver(t, InfoOk), Deliver(t, Number(1))]);
            t in sockets && sockets[t].written == Ascii("+OK:1\r\n")
  {
    var ds := [Welcome(t), Deliver(t, InfoOk), Deliver(t, Number(1))];
    assert ds[..2][..1] == ds[..1] && ds[..1][..0] == [];
    assert ObeyAll(fates, ds[..1]) == Obey(fates, map[], Welcome(t));
    assert ObeyAll(fates, ds[..2]) == Obey(fates, ObeyAll(fates, ds[..1]), Deliver(t, InfoOk));
    TornSockets(fates, t);
  }

  lemma TornValue()
    ensures Ascii("+OK:1\r\n") == WireAll([Simple(Ascii("OK:1"))])
  {
    assert "+" + "OK:1" + "\r\n" == "+OK:1\r\n";
    AsciiAppend("+" + "OK:1", "\r\n");
    AsciiAppend("+", "OK:1");
    assert Ascii("+") == [PLUS] && Ascii("\r\n") == CRLF;
    WireAllSnoc([], Simple(Ascii("OK:1")));
    assert [] + [Simple(Ascii("OK:1"))] == [Simple(Ascii("OK:1"))];
  }

  lemma TornSockets(fates: Token -> seq<Fate>, t: Token)
    requires fates(t) == [Cut(3)]
    ensures var sockets := Obey(fates, map[], Welcome(t));
            var torn := Obey(fates, Obey(fates, sockets, Deliver(t, InfoOk)), Deliver(t, Number(1)));
            t in torn && torn[t].written == Ascii("+OK:1\r\n")
  {
    var s0, s1 := Socket([], [Cut(3)], 0), Socket(Ascii("+OK"), [], 1);
    TornWrites(s0, s1);
    ReplyObeyed(fates, map[t := s0], t, InfoOk);
    ReplyObeyed(fates, map[t := s1], t, Number(1));
    assert map[t := s0][t := s1] == map[t := s1];
  }

  lemma TornWrites(s0: Socket, s1: Socket)
    requires s0 == Socket([], [Cut(3)], 0) && s1 == Socket(Ascii("+OK"), [], 1)
    ensures Write(s0, WireAll(Values(InfoOk))) == s1
    ensures Write(s1, WireAll(Values(Number(1)))).written == Ascii("+OK:1\r\n")
  {
    TornBytes();
  }

  lemma TornBytes()
    ensures WireAll([Simple(Ascii("OK"))]) == Ascii("+OK\r\n") && Ascii("+OK\r\n")[..3] == Ascii("+OK")
    ensures WireAll([Integer(1)]) == Ascii(":1\r\n") && Ascii("+OK") + Ascii(":1\r\n") == Ascii("+OK:1\r\n")
  {
    assert SignedDecimal(1) == [49];
    assert WireAll([Simple(Ascii("OK"))]) == Wire(Simple(Ascii("OK"))) + WireAll([]);
    assert WireAll([Integer(1)]) == Wire(Integer(1)) + WireAll([]);
  }
}
