/** RESP2 values, their wire form, and a reader for it ("Simple strings", "Errors", "Integers",
    "Bulk strings" and "Arrays" of the Redis serialization protocol specification). */
module Resp {
  import opened Bytes
  import opened Numbers

  datatype Resp =
    | Simple(text: Bytes)
    | Failure(text: Bytes)
    | Integer(n: int)
    | Bulk(data: Option<Bytes>)
    | Array(items: seq<Resp>)

  /** The wire form of one value. The absent bulk string has length -1. */
  function Wire(v: Resp): Bytes
    decreases v, 1
  {
    match v
    case Simple(text) => [PLUS] + text + CRLF
    case Failure(text) => [MINUS] + text + CRLF
    case Integer(n) => [COLON] + SignedDecimal(n) + CRLF
    case Bulk(None) => [DOLLAR] + SignedDecimal(-1) + CRLF
    case Bulk(Some(data)) => [DOLLAR] + Decimal(|data|) + CRLF + data + CRLF
    case Array(items) => [STAR] + Decimal(|items|) + CRLF + WireAll(items)
  }

  function WireAll(vs: seq<Resp>): Bytes
    decreases vs, 0
  {
    if vs == [] then [] else Wire(vs[0]) + WireAll(vs[1..])
  }

  predicate OneLine(text: Bytes) {
    forall i :: 0 <= i < |text| ==> text[i] != CR
  }

  /** Values a 64-bit server can print: texts stay on their line, numbers and sizes fit. */
  predicate Printable(v: Resp)
    decreases v, 1
  {
    match v
    case Simple(text) => OneLine(text)
    case Failure(text) => OneLine(text)
    case Integer(n) => -U64_MAX <= n <= U64_MAX
    case Bulk(None) => true
    case Bulk(Some(data)) => |data| <= U64_MAX
    case Array(items) => |items| <= U64_MAX && AllPrintable(items)
  }

  predicate AllPrintable(vs: seq<Resp>)
    decreases vs, 0
  {
    vs != [] ==> Printable(vs[0]) && AllPrintable(vs[1..])
  }

  /** The bytes before the first CRLF, and those after it. */
  function Line(s: Bytes): (r: Option<(Bytes, Bytes)>)
    ensures r.Some? ==> |r.value.1| < |s|
  {
    match FindCrlf(s)
    case None => None
    case Some(i) => Some((s[..i], s[i + 2..]))
  }

  /** The length of the absent bulk string. */
  const ABSENT: Bytes := [MINUS, 49]

  /** Reads one value from the front of s and leaves the rest. A size is a digit string, and only a bulk
      string may be absent. */
  function Read(s: Bytes): (r: Option<(Resp, Bytes)>)
    ensures r.Some? ==> |r.value.1| < |s|
    decreases |s|, 0
  {
    if s == [] then None
    else match Line(s[1..])
      case None => None
      case Some((line, rest)) =>
        if s[0] == PLUS then Some((Simple(line), rest))
        else if s[0] == MINUS then Some((Failure(line), rest))
        else if s[0] == COLON then
          match ParseInt(line, U64_MAX)
          case None => None
          case Some(n) => Some((Integer(n), rest))
        else if s[0] == DOLLAR && line == ABSENT then Some((Bulk(None), rest))
        else match ParseNat(line, U64_MAX)
          case None => None
          case Some(n) =>
            if s[0] == DOLLAR then ReadBulk(n, rest)
            else if s[0] == STAR then
              match ReadMany(rest, n)
              case None => None
              case Some((items, rest')) => Some((Array(items), rest'))
            else None
  }

  function ReadBulk(n: nat, s: Bytes): (r: Option<(Resp, Bytes)>)
    ensures r.Some? ==> |r.value.1| <= |s|
  {
    if n + 2 <= |s| && s[n..n + 2] == CRLF then Some((Bulk(Some(s[..n])), s[n + 2..]))
    else None
  }

  function ReadMany(s: Bytes, n: nat): (r: Option<(seq<Resp>, Bytes)>)
    ensures r.Some? ==> |r.value.1| <= |s|
    decreases |s|, 1, n
  {
    if n == 0 then Some(([], s))
    else match Read(s)
      case None => None
      case Some((v, rest)) =>
        match ReadMany(rest, n - 1)
        case None => None
        case Some((vs, rest')) => Some(([v] + vs, rest'))
  }

  /** Reads values until nothing is left. */
  function ReadAll(s: Bytes): Option<seq<Resp>>
    decreases |s|
  {
    if s == [] then Some([])
    else match Read(s)
      case None => None
      case Some((v, rest)) =>
        match ReadAll(rest)
        case None => None
        case Some(vs) => Some([v] + vs)
  }

  lemma LineOf(line: Bytes, rest: Bytes)
    requires OneLine(line)
    ensures Line(line + CRLF + rest) == Some((line, rest))
  {
    CrlfAfterLine(line, rest);
    var s := line + CRLF + rest;
    assert s[..|line|] == line;
    assert s[|line| + 2..] == rest;
  }

  lemma {:induction false} DecimalIsOneLine(n: nat)
    ensures OneLine(Decimal(n))
  {
    DecimalDenotes(n);
    assert forall i :: 0 <= i < |Decimal(n)| ==> IsDigit(Decimal(n)[i]);
  }

  lemma SignedDecimalIsOneLine(v: int)
    ensures OneLine(SignedDecimal(v))
  {
    DecimalIsOneLine(if v < 0 then -v else v);
  }

  /** What follows a value's type byte splits at the header line. */
  lemma Header(kind: byte, line: Bytes, rest: Bytes)
    requires OneLine(line)
    ensures var s := [kind] + line + CRLF + rest;
            s[0] == kind && Line(s[1..]) == Some((line, rest))
  {
    LineOf(line, rest);
    assert ([kind] + line + CRLF + rest)[1..] == line + CRLF + rest;
  }

  /** The reader undoes the wire form, whatever follows. */
  lemma {:induction false} ReadWire(v: Resp, rest: Bytes)
    requires Printable(v)
    ensures Read(Wire(v) + rest) == Some((v, rest))
    decreases v, 1
  {
    match v {
      case Simple(text) =>
        Header(PLUS, text, rest);
      case Failure(text) =>
        Header(MINUS, text, rest);
      case Integer(n) =>
        SignedDecimalIsOneLine(n);
        ParsePrinted(n, U64_MAX);
        Header(COLON, SignedDecimal(n), rest);
      case Bulk(None) =>
        assert SignedDecimal(-1) == ABSENT;
        Header(DOLLAR, ABSENT, rest);
      case Bulk(Some(data)) =>
        ReadWireBulk(data, rest);
      case Array(items) =>
        ReadWireArray(items, rest);
        ReadManyWire(items, rest);
    }
  }

  lemma ReadWireBulk(data: Bytes, rest: Bytes)
    requires |data| <= U64_MAX
    ensures Read(Wire(Bulk(Some(data))) + rest) == Some((Bulk(Some(data)), rest))
  {
    var n := |data|;
    DecimalIsOneLine(n);
    ParsePrintedNat(n, U64_MAX);
    var body := data + CRLF + rest;
    Header(DOLLAR, Decimal(n), body);
    assert Wire(Bulk(Some(data))) + rest == [DOLLAR] + Decimal(n) + CRLF + body;
    assert body[..n] == data && body[n..n + 2] == CRLF && body[n + 2..] == rest;
  }

  lemma ReadWireArray(items: seq<Resp>, rest: Bytes)
    requires |items| <= U64_MAX
    ensures Read(Wire(Array(items)) + rest) ==
            match ReadMany(WireAll(items) + rest, |items|)
            case None => None
            case Some((vs, rest')) => Some((Array(vs), rest'))
  {
    var n := |items|;
    DecimalIsOneLine(n);
    ParsePrintedNat(n, U64_MAX);
    Header(STAR, Decimal(n), WireAll(items) + rest);
    assert Wire(Array(items)) + rest == [STAR] + Decimal(n) + CRLF + (WireAll(items) + rest);
  }

  lemma {:induction false} ReadManyWire(vs: seq<Resp>, rest: Bytes)
    requires AllPrintable(vs)
    ensures ReadMany(WireAll(vs) + rest, |vs|) == Some((vs, rest))
    decreases vs, 0
  {
    if vs == [] {
      assert WireAll(vs) + rest == rest;
    } else {
      var tail := WireAll(vs[1..]) + rest;
      assert WireAll(vs) + rest == Wire(vs[0]) + tail;
      ReadWire(vs[0], tail);
      ReadManyWire(vs[1..], rest);
      ReadManyStep(WireAll(vs) + rest, vs[0], tail, vs[1..], rest);
      assert [vs[0]] + vs[1..] == vs;
    }
  }

  lemma ReadManyStep(s: Bytes, v: Resp, tail: Bytes, vs: seq<Resp>, rest: Bytes)
    requires Read(s) == Some((v, tail)) && ReadMany(tail, |vs|) == Some((vs, rest))
    ensures ReadMany(s, |vs| + 1) == Some(([v] + vs, rest))
  {
  }

  /** A stream of printed values reads back as exactly those values. */
  lemma {:induction false} ReadAllWire(vs: seq<Resp>)
    requires AllPrintable(vs)
    ensures ReadAll(WireAll(vs)) == Some(vs)
  {
    if vs != [] {
      ReadWire(vs[0], WireAll(vs[1..]));
      ReadAllWire(vs[1..]);
      assert [vs[0]] + vs[1..] == vs;
    }
  }

  lemma {:induction false} WireAllAppend(us: seq<Resp>, vs: seq<Resp>)
    ensures WireAll(us + vs) == WireAll(us) + WireAll(vs)
    ensures AllPrintable(us) && AllPrintable(vs) ==> AllPrintable(us + vs)
  {
    if us == [] {
      assert us + vs == vs;
    } else {
      assert (us + vs)[1..] == us[1..] + vs;
      WireAllAppend(us[1..], vs);
    }
  }
}
