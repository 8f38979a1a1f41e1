/** Replies, and the printer of src/egress/send.rs: which RESP2 values a reply is, and the
    buffer-filling code proved to print exactly those. */
module Replies {
  import opened Bytes
  import opened Numbers
  import opened Resp

  datatype CommandName =
    | PING | SET | GET | EX | INCR | INCRBY | DECR | APPEND | STRLEN | EXISTS | DEL
    | HSET | HGET | HMGET | HDEL | HEXISTS | HLEN
    | LPUSH | LPOP | RPUSH | RPOP | LLEN | LRANGE | LINDEX | LSET | LREM
    | EXPIRE | TTL | SUBSCRIBE | PUBLISH | MSET | MGET
    | SADD | SREM | SISMEMBER | HGETALL | SMEMBERS | CONFIG | COMMAND

  datatype Sacrilege =
    | IncorrectNumberOfArguments(command: CommandName)
    | IncorrectUsage(command: CommandName)
    | UnknownCommand
    | SubscriberOnlyMode

  type Counted = (Bytes, nat)

  datatype Response =
    | Error(sacrilege: Sacrilege)
    | InfoOk
    | InfoPong
    | BulkString(data: Option<Bytes>)
    | BulkStringArray(rows: Option<seq<Option<Bytes>>>)
    | Amount(amount: nat)
    | Number(number: int)
    | Length(length: nat)
    | SubscribedChannels(joined: seq<Counted>)
    | UnsubscribedChannels(left: Option<seq<Counted>>)

  /** Printable ASCII, so in particular no line end. */
  predicate Plain(s: string) {
    forall i :: 0 <= i < |s| ==> ' ' <= s[i] <= '~'
  }

  function NameText(c: CommandName): (text: string)
    ensures Plain(text)
  {
    match c
    case PING => "ping" case SET => "set" case GET => "get" case EX => "ex"
    case INCR => "incr" case INCRBY => "incrby" case DECR => "decr" case APPEND => "append"
    case STRLEN => "strlen" case EXISTS => "exists" case DEL => "del" case HSET => "hset"
    case HGET => "hget" case HMGET => "hmget" case HDEL => "hdel" case HEXISTS => "hexists"
    case HLEN => "hlen" case LPUSH => "lpush" case LPOP => "lpop" case RPUSH => "rpush"
    case RPOP => "rpop" case LLEN => "llen" case LRANGE => "lrange" case LINDEX => "lindex"
    case LSET => "lset" case LREM => "lrem" case EXPIRE => "expire" case TTL => "ttl"
    case SUBSCRIBE => "subscribe" case PUBLISH => "publish" case MSET => "mset" case MGET => "mget"
    case SADD => "sadd" case SREM => "srem" case SISMEMBER => "sismember" case HGETALL => "hgetall"
    case SMEMBERS => "smembers" case CONFIG => "config" case COMMAND => "command"
  }

  function NotANumberText(): (text: string)
    ensures Plain(text)
  {
    "ERR value is not an integer" + " or out of range"
  }

  function OutOfRangeText(): (text: string)
    ensures Plain(text)
  {
    "ERR index out of range"
  }

  function ConfigText(): (text: string)
    ensures Plain(text)
  {
    "ERR Unknown Command after 'config'"
  }

  function WrongTypeText(): (text: string)
    ensures Plain(text)
  {
    "WRONGTYPE Operation against a key" + " holding the wrong kind of value"
  }

  function UsageText(c: CommandName): (text: string)
    ensures Plain(text)
  {
    match c
    case INCR | DECR | INCRBY => NotANumberText()
    case LSET | LINDEX => OutOfRangeText()
    case CONFIG => ConfigText()
    case _ => WrongTypeText()
  }

  function ArityText(c: CommandName): (text: string)
    ensures Plain(text)
  {
    "ERR wrong number of arguments for '" + NameText(c) + "' command"
  }

  function ModeText(): (text: string)
    ensures Plain(text)
  {
    "ERR only SUBSCRIBE / UNSUBSCRIBE" + " / PING / QUIT allowed in this context"
  }

  function ErrorText(s: Sacrilege): (text: string)
    ensures Plain(text)
  {
    match s
    case UnknownCommand => "ERR unknown command"
    case IncorrectUsage(command) => UsageText(command)
    case IncorrectNumberOfArguments(command) => ArityText(command)
    case SubscriberOnlyMode => ModeText()
  }

  function Rows(rows: seq<Option<Bytes>>): seq<Resp> {
    seq(|rows|, i requires 0 <= i < |rows| => Bulk(rows[i]))
  }

  function ChannelValue(verb: string, channel: Option<Bytes>, count: nat): Resp {
    Array([Bulk(Some(Ascii(verb))), Bulk(channel), Integer(count)])
  }

  function ChannelValues(verb: string, channels: seq<Counted>): seq<Resp> {
    seq(|channels|, i requires 0 <= i < |channels| =>
      ChannelValue(verb, Some(channels[i].0), channels[i].1))
  }

  /** The RESP2 values a client reads as one reply. A SUBSCRIBE that adds no channel is answered by
      no value at all. */
  function Values(r: Response): seq<Resp> {
    match r
    case Error(s) => [Failure(Ascii(ErrorText(s)))]
    case InfoOk => [Simple(Ascii("OK"))]
    case InfoPong => [Simple(Ascii("PONG"))]
    case BulkString(data) => [Bulk(data)]
    case BulkStringArray(None) => [Bulk(None)]
    case BulkStringArray(Some(rows)) => [Array(Rows(rows))]
    case Amount(n) => [Integer(n)]
    case Number(n) => [Integer(n)]
    case Length(n) => [Integer(n)]
    case SubscribedChannels(channels) => ChannelValues("subscribe", channels)
    case UnsubscribedChannels(None) => [ChannelValue("unsubscribe", None, 0)]
    case UnsubscribedChannels(Some(channels)) => ChannelValues("unsubscribe", channels)
  }

  /** The pushed frame of a published message. */
  function MessageValue(event: Bytes, message: Bytes): Resp {
    Array([Bulk(Some(Ascii("message"))), Bulk(Some(event)), Bulk(Some(message))])
  }

  predicate CountedFits(channels: seq<Counted>) {
    forall i :: 0 <= i < |channels| ==> |channels[i].0| <= U64_MAX && channels[i].1 <= U64_MAX
  }

  /** The ranges of the source's types: u32, i64, usize, and sizes that fit a usize. */
  predicate InRange(r: Response) {
    match r
    case Error(_) => true
    case InfoOk => true
    case InfoPong => true
    case BulkString(data) => data.Some? ==> |data.value| <= U64_MAX
    case BulkStringArray(rows) =>
      rows.Some? ==> |rows.value| <= U64_MAX &&
                     forall i :: 0 <= i < |rows.value| && rows.value[i].Some? ==> |rows.value[i].value| <= U64_MAX
    case Amount(n) => n <= 0xffff_ffff
    case Number(n) => I64_MIN <= n <= I64_MAX
    case Length(n) => n <= U64_MAX
    case SubscribedChannels(channels) => CountedFits(channels)
    case UnsubscribedChannels(channels) => channels.Some? ==> CountedFits(channels.value)
  }

  lemma WireAllSnoc(vs: seq<Resp>, v: Resp)
    ensures WireAll(vs + [v]) == WireAll(vs) + Wire(v)
  {
    WireAllAppend(vs, [v]);
    assert WireAll([v]) == Wire(v) + WireAll([]);
  }

  /** The reused output buffer of the egress thread. */
  class Printer {
    var response: Bytes

    constructor ()
      ensures response == []
    {
      response := [];
    }

    method Extend(bytes: Bytes)
      modifies this
      ensures response == old(response) + bytes
    {
      response := response + bytes;
    }

    method ExtendLine(kind: byte, text: Bytes)
      modifies this
      ensures response == old(response) + ([kind] + text + CRLF)
    {
      Extend([kind]);
      Extend(text);
      Extend(CRLF);
    }

    method ExtendBulk(value: Option<Bytes>)
      modifies this
      ensures response == old(response) + Wire(Bulk(value))
    {
      match value {
        case Some(data) =>
          ExtendLine(DOLLAR, Decimal(|data|));
          Extend(data);
          Extend(CRLF);
        case None =>
          assert SignedDecimal(-1) == Ascii("-1");
          assert Wire(Bulk(None)) == Ascii("$-1\r\n");
          Extend(Ascii("$-1\r\n"));
      }
    }

    method ExtendInteger(n: int)
      modifies this
      ensures response == old(response) + Wire(Integer(n))
    {
      ExtendLine(COLON, SignedDecimal(n));
    }

    method ExtendEach(rows: seq<Option<Bytes>>)
      modifies this
      ensures response == old(response) + WireAll(Rows(rows))
    {
      ghost var values := Rows(rows);
      assert values[..0] == [];
      for i := 0 to |rows|
        invariant response == old(response) + WireAll(values[..i])
      {
        WireAllSnoc(values[..i], values[i]);
        assert values[..i + 1] == values[..i] + [values[i]];
        ExtendBulk(rows[i]);
      }
      assert values[..|rows|] == values;
    }

    method ExtendRows(rows: seq<Option<Bytes>>)
      modifies this
      ensures response == old(response) + Wire(Array(Rows(rows)))
    {
      ExtendLine(STAR, Decimal(|rows|));
      ExtendEach(rows);
    }

    /** What follows the header of a channel's frame: the channel and the count. */
    method ExtendCounted(channel: Bytes, count: nat)
      modifies this
      ensures response == old(response) + (Sized(channel) + Wire(Integer(count)))
    {
      Extend(Decimal(|channel|));
      Extend(CRLF);
      Extend(channel);
      Extend(Ascii("\r\n:"));
      Extend(Decimal(count));
      Extend(CRLF);
      assert Ascii("\r\n:") == CRLF + [COLON];
      assert Wire(Integer(count)) == [COLON] + Decimal(count) + CRLF;
    }

    /** One channel of a report: the literal header, then the channel and its count. */
    method ExtendChannel(joining: bool, channel: Bytes, count: nat)
      modifies this
      ensures response == old(response) + Wire(ChannelValue(Verb(joining), Some(channel), count))
    {
      if joining {
        SubscribeHeader();
        Extend(Ascii("*3\r\n$9\r\nsubscribe\r\n$"));
      } else {
        UnsubscribeHeader();
        Extend(Ascii("*3\r\n$11\r\nunsubscribe\r\n$"));
      }
      ExtendCounted(channel, count);
      HeaderThenCounted(Verb(joining), channel, count);
    }

    method ExtendNothingLeft()
      modifies this
      ensures response == old(response) + Wire(ChannelValue("unsubscribe", None, 0))
    {
      NothingLeftLiteral();
      Extend(Ascii("*3\r\n$11\r\nunsubscribe\r\n$-1\r\n:0\r\n"));
    }

    method ExtendOk()
      modifies this
      ensures response == old(response) + Wire(Simple(Ascii("OK")))
    {
      assert Ascii("+OK\r\n") == Wire(Simple(Ascii("OK")));
      Extend(Ascii("+OK\r\n"));
    }

    method ExtendPong()
      modifies this
      ensures response == old(response) + Wire(Simple(Ascii("PONG")))
    {
      assert Ascii("+PONG\r\n") == Wire(Simple(Ascii("PONG")));
      Extend(Ascii("+PONG\r\n"));
    }

    /** The two loops over a report. */
    method ExtendChannels(joining: bool, channels: seq<Counted>)
      modifies this
      ensures response == old(response) + WireAll(ChannelValues(Verb(joining), channels))
    {
      ghost var values := ChannelValues(Verb(joining), channels);
      assert values[..0] == [];
      for i := 0 to |channels|
        invariant response == old(response) + WireAll(values[..i])
      {
        WireAllSnoc(values[..i], values[i]);
        assert values[..i + 1] == values[..i] + [values[i]];
        ExtendChannel(joining, channels[i].0, channels[i].1);
      }
      assert values[..|channels|] == values;
    }

    /** send, up to the write to the socket: whatever the buffer held, it ends up holding the wire
        form of this reply and nothing else. */
    method Send(r: Response)
      modifies this
      ensures response == WireAll(Values(r))
    {
      response := [];
      WireAllOfOne(r);
      match r {
        case InfoOk => ExtendOk();
        case InfoPong => ExtendPong();
        case BulkString(data) => ExtendBulk(data);
        case BulkStringArray(Some(rows)) => ExtendRows(rows);
        case BulkStringArray(None) => ExtendBulk(None);
        case Amount(n) => ExtendInteger(n);
        case Number(n) => ExtendInteger(n);
        case Length(n) => ExtendInteger(n);
        case SubscribedChannels(channels) => ExtendChannels(true, channels);
        case UnsubscribedChannels(Some(channels)) => ExtendChannels(false, channels);
        case UnsubscribedChannels(None) => ExtendNothingLeft();
        case Error(s) => ExtendLine(MINUS, Ascii(ErrorText(s)));
      }
    }
  }

  function Verb(joining: bool): string {
    if joining then "subscribe" else "unsubscribe"
  }

  /** A frame of three elements up to the length of its second, the verb coming first. */
  function FrameHeader(verb: string): Bytes {
    [STAR] + Decimal(3) + CRLF + Wire(Bulk(Some(Ascii(verb)))) + [DOLLAR]
  }

  lemma AsciiAppend(a: string, b: string)
    ensures Ascii(a + b) == Ascii(a) + Ascii(b)
  {
  }

  lemma LiteralParts(verb: string, size: string)
    ensures Ascii("*3\r\n$" + size + "\r\n" + verb + "\r\n$") ==
            Ascii("*3\r\n$") + Ascii(size) + Ascii("\r\n") + Ascii(verb) + Ascii("\r\n$")
  {
    AsciiAppend("*3\r\n$" + size + "\r\n" + verb, "\r\n$");
    AsciiAppend("*3\r\n$" + size + "\r\n", verb);
    AsciiAppend("*3\r\n$" + size, "\r\n");
    AsciiAppend("*3\r\n$", size);
  }

  lemma FixedParts()
    ensures Ascii("*3\r\n$") == [STAR] + Decimal(3) + CRLF + [DOLLAR]
    ensures Ascii("\r\n") == CRLF && Ascii("\r\n$") == CRLF + [DOLLAR]
  {
    assert Decimal(3) == [51];
  }

  /** A literal header is one if the length written into it is right. */
  lemma HeaderLiteral(verb: string, size: string)
    requires Ascii(size) == Decimal(|verb|)
    ensures Ascii("*3\r\n$" + size + "\r\n" + verb + "\r\n$") == FrameHeader(verb)
  {
    LiteralParts(verb, size);
    FixedParts();
    InOneRow([STAR] + Decimal(3) + CRLF, Decimal(|verb|), Ascii(verb));
  }

  lemma InOneRow(h: Bytes, size: Bytes, verb: Bytes)
    ensures (h + [DOLLAR]) + size + CRLF + verb + (CRLF + [DOLLAR]) ==
            h + ([DOLLAR] + size + CRLF + verb + CRLF) + [DOLLAR]
  {
  }

  /** The literals of the source are such headers: the lengths written into them are right. */
  lemma SubscribeHeader()
    ensures Ascii("*3\r\n$9\r\nsubscribe\r\n$") == FrameHeader("subscribe")
  {
    assert Ascii("9") == Decimal(9);
    HeaderLiteral("subscribe", "9");
    assert "*3\r\n$" + "9" + "\r\n" + "subscribe" + "\r\n$" == "*3\r\n$9\r\nsubscribe\r\n$";
  }

  lemma UnsubscribeHeader()
    ensures Ascii("*3\r\n$11\r\nunsubscribe\r\n$") == FrameHeader("unsubscribe")
  {
    assert Ascii("11") == Decimal(11);
    HeaderLiteral("unsubscribe", "11");
    assert "*3\r\n$" + "11" + "\r\n" + "unsubscribe" + "\r\n$" == "*3\r\n$11\r\nunsubscribe\r\n$";
  }

  lemma MessageHeader()
    ensures Ascii("*3\r\n$7\r\nmessage\r\n$") == FrameHeader("message")
  {
    assert Ascii("7") == Decimal(7);
    HeaderLiteral("message", "7");
    assert "*3\r\n$" + "7" + "\r\n" + "message" + "\r\n$" == "*3\r\n$7\r\nmessage\r\n$";
  }

  lemma NothingLeftLiteral()
    ensures Ascii("*3\r\n$11\r\nunsubscribe\r\n$-1\r\n:0\r\n") == Wire(ChannelValue("unsubscribe", None, 0))
  {
    var h, v := [STAR] + Decimal(3) + CRLF, Wire(Bulk(Some(Ascii("unsubscribe"))));
    var none, zero := Ascii("-1\r\n"), Ascii(":0\r\n");
    UnsubscribeHeader();
    ChannelWire("unsubscribe", None, 0);
    assert SignedDecimal(-1) == Ascii("-1");
    assert Wire(Bulk(None)) == [DOLLAR] + none;
    assert Wire(Integer(0)) == zero;
    Regroup(h, v, [DOLLAR], none, zero);
    NothingLeftParts();
  }

  lemma NothingLeftParts()
    ensures Ascii("*3\r\n$11\r\nunsubscribe\r\n$-1\r\n:0\r\n") ==
            Ascii("*3\r\n$11\r\nunsubscribe\r\n$") + (Ascii("-1\r\n") + Ascii(":0\r\n"))
  {
  }

  lemma Regroup(h: Bytes, v: Bytes, d: Bytes, a: Bytes, b: Bytes)
    ensures (h + v + d) + (a + b) == h + (v + (d + a) + b)
  {
  }

  /** A bulk string behind its dollar. */
  function Sized(data: Bytes): Bytes {
    Decimal(|data|) + CRLF + data + CRLF
  }

  lemma BulkIsSized(data: Bytes)
    ensures Wire(Bulk(Some(data))) == [DOLLAR] + Sized(data)
  {
  }

  lemma HeaderThenCounted(verb: string, channel: Bytes, count: nat)
    ensures FrameHeader(verb) + (Sized(channel) + Wire(Integer(count))) ==
            Wire(ChannelValue(verb, Some(channel), count))
  {
    ChannelWire(verb, Some(channel), count);
    BulkIsSized(channel);
    Regroup([STAR] + Decimal(3) + CRLF, Wire(Bulk(Some(Ascii(verb)))), [DOLLAR], Sized(channel), Wire(Integer(count)));
  }

  lemma ChannelWire(verb: string, channel: Option<Bytes>, count: nat)
    ensures Wire(ChannelValue(verb, channel, count)) ==
            [STAR] + Decimal(3) + CRLF +
            (Wire(Bulk(Some(Ascii(verb)))) + Wire(Bulk(channel)) + Wire(Integer(count)))
  {
    WireAllOfThree(ChannelValue(verb, channel, count).items);
  }

  /** The message frame as egress builds it. */
  lemma MessageWire(event: Bytes, message: Bytes)
    ensures Wire(MessageValue(event, message)) ==
            FrameHeader("message") + (Sized(event) + ([DOLLAR] + Sized(message)))
  {
    WireAllOfThree(MessageValue(event, message).items);
    BulkIsSized(event);
    BulkIsSized(message);
    Regroup([STAR] + Decimal(3) + CRLF, Wire(Bulk(Some(Ascii("message")))), [DOLLAR], Sized(event),
            [DOLLAR] + Sized(message));
  }

  lemma WireAllOfThree(items: seq<Resp>)
    requires |items| == 3
    ensures WireAll(items) == Wire(items[0]) + Wire(items[1]) + Wire(items[2])
  {
    assert WireAll(items[3..]) == [];
    assert WireAll(items[2..]) == Wire(items[2]) + WireAll(items[2..][1..]);
    assert WireAll(items[1..]) == Wire(items[1]) + WireAll(items[1..][1..]);
  }

  lemma WireAllOfOne(r: Response)
    ensures |Values(r)| == 1 ==> WireAll(Values(r)) == Wire(Values(r)[0])
  {
  }

  lemma PlainIsOneLine(s: string)
    requires Plain(s)
    ensures OneLine(Ascii(s))
  {
  }

  lemma {:induction false} PrintableAt(vs: seq<Resp>)
    requires forall i :: 0 <= i < |vs| ==> Printable(vs[i])
    ensures AllPrintable(vs)
  {
    if vs != [] {
      PrintableAt(vs[1..]);
    }
  }

  /** Every reply a 64-bit server can hold prints as values a reader can recover. */
  lemma RepliesArePrintable(r: Response)
    requires InRange(r)
    ensures AllPrintable(Values(r))
  {
    match r {
      case SubscribedChannels(channels) =>
        ChannelsArePrintable("subscribe", channels);
      case UnsubscribedChannels(Some(channels)) =>
        ChannelsArePrintable("unsubscribe", channels);
      case _ =>
        SingleIsPrintable(r);
        PrintableAt(Values(r));
    }
  }

  lemma NothingLeftIsPrintable()
    ensures Printable(ChannelValue("unsubscribe", None, 0))
  {
  }

  lemma SingleIsPrintable(r: Response)
    requires InRange(r) && |Values(r)| == 1
    requires !r.SubscribedChannels? && !(r.UnsubscribedChannels? && r.left.Some?)
    ensures Printable(Values(r)[0])
  {
    match r {
      case Error(s) => PlainIsOneLine(ErrorText(s));
      case BulkStringArray(Some(rows)) => PrintableAt(Rows(rows));
      case UnsubscribedChannels(None) => NothingLeftIsPrintable();
      case _ =>
    }
  }

  lemma ChannelsArePrintable(verb: string, channels: seq<Counted>)
    requires CountedFits(channels) && |verb| <= U64_MAX
    ensures AllPrintable(ChannelValues(verb, channels))
  {
    forall i | 0 <= i < |channels| ensures Printable(ChannelValues(verb, channels)[i]) {
      PrintableAt(ChannelValue(verb, Some(channels[i].0), channels[i].1).items);
    }
    PrintableAt(ChannelValues(verb, channels));
  }
}
