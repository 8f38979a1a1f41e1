/** The printer and the request decoder undo each other: commands printed as arrays of bulk
    strings come out of wish unchanged, however the socket splits them. */
module RoundTrip {
  import opened Bytes
  import opened Numbers
  import opened Decoder
  import Resp
  import Replies
  import opened Sessions
  import opened SessionLaws

  /** The widest step the buffer can always hold. */
  const WIDE: nat := LIMIT - MARGIN

  /** The reply that carries a command's terms. */
  function AsReply(c: Command): Replies.Response {
    Replies.BulkStringArray(Some(seq(|c|, i requires 0 <= i < |c| => Some(c[i]))))
  }

  /** What send prints for a run of commands. */
  function Printed(cs: seq<Command>): Bytes {
    if cs == [] then [] else Resp.WireAll(Replies.Values(AsReply(cs[0]))) + Printed(cs[1..])
  }

  /** Commands a client may send: any number of terms that the buffer can hold. */
  predicate Sendable(c: Command) {
    |c| <= USIZE_MAX && forall i :: 0 <= i < |c| ==> |c[i]| + 2 <= WIDE
  }

  /** A command without a term is read and comes to nothing. */
  function Kept(c: Command): seq<Command> {
    if c == [] then [] else [c]
  }

  /** The commands that have a term at all. */
  function NonEmpty(cs: seq<Command>): seq<Command> {
    if cs == [] then [] else Kept(cs[0]) + NonEmpty(cs[1..])
  }

  /** Decoding d hands over g by narrow, unskipped steps and then is decoding d'. */
  predicate Leads(d: Decoded, g: seq<Command>, d': Decoded) {
    && d.granted == g + d'.granted
    && d.sin == d'.sin && d.reading == d'.reading && d.rest == d'.rest
    && d.skips == d'.skips
    && d.widest <= Max(WIDE, d'.widest)
  }

  lemma LeadsOn(d: Decoded, g: seq<Command>, d': Decoded, g': seq<Command>, d'': Decoded)
    requires Leads(d, g, d') && Leads(d', g', d'')
    ensures Leads(d, g + g', d'')
  {
  }

  function Items(c: Command): seq<Resp.Resp> {
    seq(|c|, i requires 0 <= i < |c| => Resp.Bulk(Some(c[i])))
  }

  function Pow10(k: nat): nat {
    if k == 0 then 1 else 10 * Pow10(k - 1)
  }

  lemma {:induction false} DecimalIsShort(n: nat, k: nat)
    requires n < Pow10(k)
    ensures |Decimal(n)| <= if k == 0 then 1 else k
  {
    if n >= 10 {
      DecimalIsShort(n / 10, k - 1);
    }
  }

  lemma SizesAreShort(n: nat)
    requires n <= USIZE_MAX
    ensures |Decimal(n)| <= 20
  {
    assert Pow10(5) == 10_0000 && Pow10(10) == 10_0000 * Pow10(5);
    assert Pow10(15) == 10_0000 * Pow10(10) && Pow10(20) == 10_0000 * Pow10(15);
    DecimalIsShort(n, 20);
  }

  /** A printed number and its line end, as the decoder's two count phases see them. */
  lemma CountLine(n: nat, rest: Bytes)
    requires n <= USIZE_MAX
    ensures var w := Decimal(n) + CRLF + rest;
            var i := |Decimal(n)|;
            && FindCrlf(w) == Some(i) && ParseNat(w[..i], USIZE_MAX) == Some(n)
            && i + 2 <= WIDE && w[i + 2..] == rest && w != []
  {
    Resp.DecimalIsOneLine(n);
    CrlfAfterLine(Decimal(n), rest);
    DecimalDenotes(n);
    SizesAreShort(n);
    var w := Decimal(n) + CRLF + rest;
    assert w[..|Decimal(n)|] == Decimal(n);
    assert w[|Decimal(n)| + 2..] == rest;
  }

  lemma Stepped(r: Reading, w: Bytes)
    requires Next(r, w).Took? && Next(r, w).count <= WIDE && !Next(r, w).skipped
    ensures Leads(Decode(r, w), Next(r, w).granted, Decode(Next(r, w).next, w[Next(r, w).count..]))
  {
  }

  lemma DecodeCount(e: nat, n: nat, rest: Bytes)
    requires n <= USIZE_MAX
    ensures Leads(Decode(Reading(Idle, [], e), [STAR] + Decimal(n) + CRLF + rest), [],
                  Decode(Reading(if n == 0 then Idle else GraspingMarker, [], n), rest))
  {
    var r0, w0 := Reading(Idle, [], e), [STAR] + Decimal(n) + CRLF + rest;
    var r1, w1 := Reading(AwaitingTermCount, [], e), Decimal(n) + CRLF + rest;
    assert w0[1..] == w1;
    Stepped(r0, w0);
    CountLine(n, rest);
    Stepped(r1, w1);
    LeadsOn(Decode(r0, w0), [], Decode(r1, w1), [],
            Decode(Reading(if n == 0 then Idle else GraspingMarker, [], n), rest));
  }

  lemma DecodeLength(terms: seq<Bytes>, e: nat, n: nat, rest: Bytes)
    requires n <= USIZE_MAX
    ensures Leads(Decode(Reading(GraspingMarker, terms, e), [DOLLAR] + Decimal(n) + CRLF + rest), [],
                  Decode(Reading(AwaitingBulkString(n), terms, e), rest))
  {
    var r0, w0 := Reading(GraspingMarker, terms, e), [DOLLAR] + Decimal(n) + CRLF + rest;
    var r1, w1 := Reading(AwaitingBulkStringLength, terms, e), Decimal(n) + CRLF + rest;
    assert w0[1..] == w1;
    Stepped(r0, w0);
    CountLine(n, rest);
    Stepped(r1, w1);
    LeadsOn(Decode(r0, w0), [], Decode(r1, w1), [], Decode(Reading(AwaitingBulkString(n), terms, e), rest));
  }

  /** One printed term moves the decoder to the next marker, or finishes the command. */
  lemma DecodeTerm(terms: seq<Bytes>, e: nat, x: Bytes, rest: Bytes)
    requires |x| + 2 <= WIDE
    ensures var done := |terms| + 1 == e;
            Leads(Decode(Reading(GraspingMarker, terms, e), Resp.Wire(Resp.Bulk(Some(x))) + rest),
                  if done then [terms + [x]] else [],
                  Decode(if done then Reading(Idle, [], e) else Reading(GraspingMarker, terms + [x], e), rest))
  {
    var r0, w0 := Reading(GraspingMarker, terms, e), Resp.Wire(Resp.Bulk(Some(x))) + rest;
    var r1, w1 := Reading(AwaitingBulkString(|x|), terms, e), x + CRLF + rest;
    assert w0 == [DOLLAR] + Decimal(|x|) + CRLF + w1;
    DecodeLength(terms, e, |x|, w1);
    assert w1[..|x|] == x && w1[|x| + 2..] == rest;
    Stepped(r1, w1);
    var s := Next(r1, w1);
    LeadsOn(Decode(r0, w0), [], Decode(r1, w1), s.granted, Decode(s.next, rest));
    assert [] + s.granted == s.granted;
  }

  lemma {:induction false} DecodeTerms(c: Command, k: nat, rest: Bytes)
    requires Sendable(c) && k < |c|
    ensures Leads(Decode(Reading(GraspingMarker, c[..k], |c|), Resp.WireAll(Items(c)[k..]) + rest), [c],
                  Decode(Reading(Idle, [], |c|), rest))
    decreases |c| - k
  {
    var tail := Resp.WireAll(Items(c)[k + 1..]) + rest;
    assert Items(c)[k..][1..] == Items(c)[k + 1..];
    var w := Resp.WireAll(Items(c)[k..]) + rest;
    assert w == Resp.Wire(Resp.Bulk(Some(c[k]))) + tail;
    DecodeTerm(c[..k], |c|, c[k], tail);
    assert c[..k] + [c[k]] == c[..k + 1];
    if k + 1 == |c| {
      assert c[..k + 1] == c;
      assert tail == rest;
    } else {
      DecodeTerms(c, k + 1, rest);
      LeadsOn(Decode(Reading(GraspingMarker, c[..k], |c|), w), [],
              Decode(Reading(GraspingMarker, c[..k + 1], |c|), tail), [c], Decode(Reading(Idle, [], |c|), rest));
      assert [] + [c] == [c];
    }
  }

  /** send prints a command as an array header and its terms. */
  lemma {:induction false} PrintedCommand(c: Command)
    ensures Resp.WireAll(Replies.Values(AsReply(c))) ==
            [STAR] + Decimal(|c|) + CRLF + Resp.WireAll(Items(c))
  {
    CommandValues(c);
    assert [] + [Resp.Array(Items(c))] == [Resp.Array(Items(c))];
    Replies.WireAllSnoc([], Resp.Array(Items(c)));
  }

  lemma CommandValues(c: Command)
    ensures Replies.Values(AsReply(c)) == [Resp.Array(Items(c))]
  {
    assert Replies.Rows(AsReply(c).rows.value) == Items(c);
  }

  lemma DecodeCommand(e: nat, c: Command, rest: Bytes)
    requires Sendable(c)
    ensures Leads(Decode(Reading(Idle, [], e), Resp.WireAll(Replies.Values(AsReply(c))) + rest), Kept(c),
                  Decode(Reading(Idle, [], |c|), rest))
  {
    var body := Resp.WireAll(Items(c)) + rest;
    var w := Resp.WireAll(Replies.Values(AsReply(c))) + rest;
    PrintedCommand(c);
    assert w == [STAR] + Decimal(|c|) + CRLF + body;
    DecodeCount(e, |c|, body);
    if c == [] {
      assert body == rest && Kept(c) == [];
    } else {
      DecodeTerms(c, 0, rest);
      assert c[..0] == [] && Items(c)[0..] == Items(c);
      LeadsOn(Decode(Reading(Idle, [], e), w), [], Decode(Reading(GraspingMarker, [], |c|), body), [c],
              Decode(Reading(Idle, [], |c|), rest));
      assert [] + [c] == [c] == Kept(c);
    }
  }

  /** One pass over printed commands yields exactly those that have a term, in order, and ends between
      commands: an array of no terms is no failure. */
  lemma {:induction false} DecodePrinted(e: nat, cs: seq<Command>)
    requires forall i :: 0 <= i < |cs| ==> Sendable(cs[i])
    ensures var d := Decode(Reading(Idle, [], e), Printed(cs));
            && d.granted == NonEmpty(cs) && d.sin.None? && d.skips == 0 && d.widest <= WIDE
            && d.reading.phase.Idle? && d.reading.terms == [] && d.rest == []
    decreases |cs|
  {
    if cs != [] {
      DecodeCommand(e, cs[0], Printed(cs[1..]));
      DecodePrinted(|cs[0]|, cs[1..]);
    }
  }

  /** The round trip. Whatever way a quiet socket splits the printed commands, wish never fails, at
      every moment has handed over a prefix of those that have a term, and once it has been called often
      enough has handed over exactly these and waits between commands with nothing unread. */
  lemma {:induction false} PrintThenWish(cs: seq<Command>, script: seq<Chunk>, n: nat)
    requires forall i :: 0 <= i < |cs| ==> Sendable(cs[i])
    requires Pending(script) == Printed(cs) && Quiet(script)
    ensures var (outcome, s) := Calls(Open(script), n);
            && outcome.Fine?
            && s.granted <= NonEmpty(cs)
            && (Effort(script) <= n ==>
                  s.granted == NonEmpty(cs) && s.reading.phase.Idle? && s.reading.terms == [] && s.window == [])
  {
    DecodePrinted(0, cs);
    WellFormedIsServed(script, n);
    GrantedIsPrefix(script, n);
  }

  /** A command whose first term announces one of the two lengths that panic. */
  function HugeTerm(n: nat, b: byte): Bytes {
    [STAR] + Decimal(1) + CRLF + ([DOLLAR] + Decimal(n) + CRLF + [b])
  }

  lemma DecodeHugeTerm(n: nat, b: byte)
    requires USIZE_MAX - 1 <= n <= USIZE_MAX
    ensures var d := Decode(START, HugeTerm(n, b));
            d.sin == Some(Panic) && d.granted == [] && d.skips == 0
    ensures |HugeTerm(n, b)| <= INITIAL
  {
    var rest := [DOLLAR] + Decimal(n) + CRLF + [b];
    DecodeCount(0, 1, rest);
    DecodeLength([], 1, n, [b]);
    assert Next(Reading(AwaitingBulkString(n), [], 1), [b]) == Sinful(Panic);
    SizesAreShort(1);
    SizesAreShort(n);
  }

  /** On either of them the call that reads the next byte takes its worker down. */
  lemma HugeTermPanics(n: nat, b: byte)
    requires USIZE_MAX - 1 <= n <= USIZE_MAX
    ensures Sessions.Wish(Open([Data(HugeTerm(n, b))])).0 == Fail(Panic)
  {
    var stream := HugeTerm(n, b);
    DecodeHugeTerm(n, b);
    FirstCall(stream);
    LoopFails(AllRead(stream), Panic, [] + []);
  }

  /** No stream that is well-formed, and no printed commands, hold such a term. */
  lemma WellFormedNeverPanics(script: seq<Chunk>, n: nat)
    requires WellFormed(Pending(script))
    ensures Calls(Open(script), n).0 != Fail(Panic)
  {
    FailuresAreEarned(script, n);
    var s := Calls(Open(script), n).1;
    GrantedIsPrefix(script, n);
    DecodeSplit(START, s.received, Pending(s.script));
  }

  /** A command followed by a byte that starts none is handed over, if it has a term, and then the call
      fails. */
  lemma GrantedThenFails(c: Command, b: byte)
    requires Sendable(c) && b != STAR
    requires var stream := Resp.WireAll(Replies.Values(AsReply(c))) + [b]; |stream| <= INITIAL
    ensures var stream := Resp.WireAll(Replies.Values(AsReply(c))) + [b];
            var (outcome, s) := Sessions.Wish(Open([Data(stream)]));
            outcome == Fail(Blasphemy) && s.granted == Kept(c)
  {
    var stream := Resp.WireAll(Replies.Values(AsReply(c))) + [b];
    DecodeCommand(0, c, [b]);
    assert Decode(Reading(Idle, [], |c|), [b]).granted == [];
    FirstCall(stream);
    var g := Kept(c);
    assert g + [] == g && [] + g == g;
    LoopFails(AllRead(stream), Blasphemy, g);
  }
}
