/** The bytes of every reply, written out. */
module WireBytes {
  import opened Bytes
  import opened Numbers
  import opened Resp
  import opened Replies

  /** A bulk string, present or absent. */
  function BulkBytes(data: Option<Bytes>): Bytes {
    match data
    case None => Ascii("$-1\r\n")
    case Some(x) => Ascii("$") + Decimal(|x|) + Ascii("\r\n") + x + Ascii("\r\n")
  }

  function RowBytes(rows: seq<Option<Bytes>>): Bytes {
    if rows == [] then [] else BulkBytes(rows[0]) + RowBytes(rows[1..])
  }

  function NumberBytes(n: int): Bytes {
    Ascii(":") + SignedDecimal(n) + Ascii("\r\n")
  }

  /** One frame for each channel: a literal header, the channel and its count. */
  function ChannelBytes(header: Bytes, channels: seq<Counted>): Bytes {
    if channels == [] then []
    else
      header + Decimal(|channels[0].0|) + Ascii("\r\n") + channels[0].0 + Ascii("\r\n") +
      NumberBytes(channels[0].1) + ChannelBytes(header, channels[1..])
  }

  /** The marks of RESP2. */
  lemma Marks()
    ensures Ascii("$") == [DOLLAR] && Ascii("*") == [STAR] && Ascii(":") == [COLON]
    ensures Ascii("-") == [MINUS] && Ascii("+") == [PLUS] && Ascii("\r\n") == CRLF
  {
  }

  lemma BulkIsBytes(data: Option<Bytes>)
    ensures Wire(Bulk(data)) == BulkBytes(data)
  {
    Marks();
    match data {
      case None =>
        assert SignedDecimal(-1) == Ascii("-1");
        assert Ascii("$-1\r\n") == Ascii("$") + Ascii("-1") + Ascii("\r\n");
      case Some(_) =>
    }
  }

  lemma IntegerIsBytes(n: int)
    ensures Wire(Integer(n)) == NumberBytes(n)
  {
    Marks();
  }

  lemma {:induction false} RowsAreBytes(rows: seq<Option<Bytes>>)
    ensures WireAll(Rows(rows)) == RowBytes(rows)
  {
    if rows != [] {
      BulkIsBytes(rows[0]);
      RowsAreBytes(rows[1..]);
      assert Rows(rows)[1..] == Rows(rows[1..]);
    }
  }

  lemma OneValue(v: Resp)
    ensures WireAll([v]) == Wire(v)
  {
    assert WireAll([v]) == Wire(v) + WireAll([]);
  }

  /** A channel's frame, its header being that of its verb. */
  lemma ChannelIsBytes(verb: string, channel: Bytes, count: nat)
    ensures Wire(ChannelValue(verb, Some(channel), count)) ==
            FrameHeader(verb) + Decimal(|channel|) + Ascii("\r\n") + channel + Ascii("\r\n") + NumberBytes(count)
  {
    HeaderThenCounted(verb, channel, count);
    IntegerIsBytes(count);
    Marks();
    Ungrouped(FrameHeader(verb), Decimal(|channel|), channel, NumberBytes(count));
  }

  lemma Ungrouped(h: Bytes, size: Bytes, channel: Bytes, n: Bytes)
    ensures h + ((size + CRLF + channel + CRLF) + n) == h + size + CRLF + channel + CRLF + n
  {
  }

  lemma {:induction false} ChannelsAreBytes(verb: string, channels: seq<Counted>)
    ensures WireAll(ChannelValues(verb, channels)) == ChannelBytes(FrameHeader(verb), channels)
  {
    if channels != [] {
      ChannelIsBytes(verb, channels[0].0, channels[0].1);
      ChannelsAreBytes(verb, channels[1..]);
      assert ChannelValues(verb, channels)[1..] == ChannelValues(verb, channels[1..]);
    }
  }

  /** What send leaves in its buffer for each kind of reply. */
  lemma BytesOfReplies(r: Response)
    ensures var bytes := WireAll(Values(r));
            match r
            case InfoOk => bytes == Ascii("+OK\r\n")
            case InfoPong => bytes == Ascii("+PONG\r\n")
            case BulkString(data) => bytes == BulkBytes(data)
            case BulkStringArray(None) => bytes == Ascii("$-1\r\n")
            case BulkStringArray(Some(rows)) => bytes == Ascii("*") + Decimal(|rows|) + Ascii("\r\n") + RowBytes(rows)
            case Amount(n) => bytes == NumberBytes(n)
            case Number(n) => bytes == NumberBytes(n)
            case Length(n) => bytes == NumberBytes(n)
            case Error(s) => bytes == Ascii("-") + Ascii(ErrorText(s)) + Ascii("\r\n")
            case SubscribedChannels(channels) =>
              bytes == ChannelBytes(Ascii("*3\r\n$9\r\nsubscribe\r\n$"), channels)
            case UnsubscribedChannels(Some(channels)) =>
              bytes == ChannelBytes(Ascii("*3\r\n$11\r\nunsubscribe\r\n$"), channels)
            case UnsubscribedChannels(None) => bytes == Ascii("*3\r\n$11\r\nunsubscribe\r\n$-1\r\n:0\r\n")
  {
    WireAllOfOne(r);
    Marks();
    match r {
      case InfoOk => assert Ascii("+OK\r\n") == Wire(Simple(Ascii("OK")));
      case InfoPong => assert Ascii("+PONG\r\n") == Wire(Simple(Ascii("PONG")));
      case BulkString(data) => BulkIsBytes(data);
      case BulkStringArray(None) => BulkIsBytes(None);
      case BulkStringArray(Some(rows)) => RowsAreBytes(rows);
      case Amount(n) => IntegerIsBytes(n);
      case Number(n) => IntegerIsBytes(n);
      case Length(n) => IntegerIsBytes(n);
      case Error(_) =>
      case SubscribedChannels(channels) =>
        SubscribeHeader();
        ChannelsAreBytes("subscribe", channels);
      case UnsubscribedChannels(Some(channels)) =>
        UnsubscribeHeader();
        ChannelsAreBytes("unsubscribe", channels);
      case UnsubscribedChannels(None) =>
        NothingLeftLiteral();
    }
  }

  /** The error lines that name no wrong value. */
  lemma CommandErrorLines(c: CommandName)
    ensures ErrorText(IncorrectUsage(c)) == UsageText(c) && ErrorText(UnknownCommand) == "ERR unknown command"
    ensures ErrorText(SubscriberOnlyMode) ==
            "ERR only SUBSCRIBE / UNSUBSCRIBE" + " / PING / QUIT allowed in this context"
    ensures ErrorText(IncorrectNumberOfArguments(c)) ==
            "ERR wrong number of arguments for '" + NameText(c) + "' command"
  {
  }

  /** And those that do. */
  lemma ValueErrorTexts()
    ensures NotANumberText() == "ERR value is not an integer" + " or out of range"
    ensures OutOfRangeText() == "ERR index out of range"
    ensures WrongTypeText() == "WRONGTYPE Operation against a key" + " holding the wrong kind of value"
  {
  }

  /** A counter that holds no integer, an index outside a list, and otherwise a value of the wrong type. */
  lemma CounterErrorLines()
    ensures UsageText(INCR) == UsageText(DECR) == UsageText(INCRBY) == NotANumberText()
  {
  }

  lemma IndexErrorLine()
    ensures UsageText(LSET) == OutOfRangeText()
  {
  }

  lemma TypeErrorLine(c: CommandName)
    requires c != INCR && c != DECR && c != INCRBY && c != LSET && c != LINDEX && c != CONFIG
    ensures UsageText(c) == WrongTypeText()
  {
  }

  /** Decimal text has no leading zero. */
  lemma {:induction false} NoLeadingZero(n: nat)
    ensures Decimal(n) != [] && (Decimal(n)[0] == 48 <==> n == 0)
  {
    if n >= 10 {
      NoLeadingZero(n / 10);
    }
  }

  /** The frame of a published message. */
  lemma BytesOfMessage(event: Bytes, message: Bytes)
    ensures Wire(MessageValue(event, message)) ==
            Ascii("*3\r\n$7\r\nmessage\r\n") + BulkBytes(Some(event)) + BulkBytes(Some(message))
  {
    MessageHeader();
    MessageWire(event, message);
    Marks();
    var h := Ascii("*3\r\n$7\r\nmessage\r\n");
    assert Ascii("*3\r\n$7\r\nmessage\r\n$") == h + Ascii("$") by {
      assert "*3\r\n$7\r\nmessage\r\n" + "$" == "*3\r\n$7\r\nmessage\r\n$";
      AsciiAppend("*3\r\n$7\r\nmessage\r\n", "$");
    }
    MessageParts(h, Decimal(|event|), event, Decimal(|message|), message);
  }

  lemma MessageParts(h: Bytes, m: Bytes, x: Bytes, n: Bytes, y: Bytes)
    ensures (h + [DOLLAR]) + ((m + CRLF + x + CRLF) + ([DOLLAR] + (n + CRLF + y + CRLF))) ==
            h + ([DOLLAR] + m + CRLF + x + CRLF) + ([DOLLAR] + n + CRLF + y + CRLF)
  {
  }
}
