/** What src/wish.rs takes for a command, in the terms of a RESP2 reader: the decoder and the reader of
    Resp accept the same streams, and where a stream stops being one the decoder says why. */
module Grammar {
  import opened Bytes
  import opened Numbers
  import opened Decoder
  import Resp
  import opened Sessions
  import opened SessionLaws
  import RoundTrip

  /** A present bulk string, of a length the decoder's arithmetic can take. */
  predicate IsTerm(v: Resp.Resp) {
    v.Bulk? && v.data.Some? && |v.data.value| + 2 <= USIZE_MAX
  }

  /** A request: an array of terms. */
  predicate IsRequest(v: Resp.Resp) {
    v.Array? && forall i :: 0 <= i < |v.items| ==> IsTerm(v.items[i])
  }

  function TermOf(v: Resp.Resp): Bytes
    requires IsTerm(v)
  {
    v.data.value
  }

  function Terms(items: seq<Resp.Resp>): Command
    requires forall i :: 0 <= i < |items| ==> IsTerm(items[i])
  {
    if items == [] then [] else [TermOf(items[0])] + Terms(items[1..])
  }

  predicate AreRequests(vs: seq<Resp.Resp>) {
    forall i :: 0 <= i < |vs| ==> IsRequest(vs[i])
  }

  /** The commands in a run of requests: those with at least one term. */
  function Commands(vs: seq<Resp.Resp>): seq<Command>
    requires AreRequests(vs)
  {
    if vs == [] then [] else RoundTrip.Kept(Terms(vs[0].items)) + Commands(vs[1..])
  }

  /** A stream of whole requests. */
  predicate Requests(s: Bytes) {
    Resp.ReadAll(s).Some? && AreRequests(Resp.ReadAll(s).value)
  }

  /** Decoding went to the end of the bytes without a failure or a skip, and ended between commands. */
  predicate Clean(d: Decoded) {
    d.sin.None? && d.skips == 0 && d.reading.phase.Idle? && d.reading.terms == [] && d.rest == []
  }

  /** Decoding d hands over g by unskipped steps and then is decoding d'. */
  predicate Yields(d: Decoded, g: seq<Command>, d': Decoded) {
    && d.granted == g + d'.granted
    && d.sin == d'.sin && d.skips == d'.skips && d.reading == d'.reading && d.rest == d'.rest
  }

  lemma YieldsOn(d: Decoded, g: seq<Command>, d': Decoded, g': seq<Command>, d'': Decoded)
    requires Yields(d, g, d') && Yields(d', g', d'')
    ensures Yields(d, g + g', d'')
  {
  }

  /** A step that skips nothing. */
  lemma Stepped(r: Reading, w: Bytes)
    requires Next(r, w).Took? && !Next(r, w).skipped
    ensures Yields(Decode(r, w), Next(r, w).granted, Decode(Next(r, w).next, w[Next(r, w).count..]))
  {
  }

  /* ----- one term ----- */

  /** What the reader of a present bulk string has seen: a marker, a line with a number, and as many bytes
      with a line end behind them. */
  lemma BulkRead(w: Bytes, x: Bytes, rest: Bytes) returns (i: nat)
    requires Resp.Read(w) == Some((Resp.Bulk(Some(x)), rest))
    ensures w != [] && w[0] == DOLLAR && i + 2 <= |w[1..]|
    ensures FindCrlf(w[1..]) == Some(i) && ParseNat(w[1..][..i], USIZE_MAX) == Some(|x|)
    ensures w[1..][i + 2..] == x + CRLF + rest
  {
    i := FindCrlf(w[1..]).value;
    var n, w2 := |x|, w[1..][i + 2..];
    assert Resp.ReadBulk(n, w2) == Some((Resp.Bulk(Some(x)), rest));
    assert w2 == w2[..n] + w2[n..n + 2] + w2[n + 2..];
  }

  /** The decoder on a term it has read the header of. */
  lemma TermIsTaken(terms: seq<Bytes>, e: nat, x: Bytes, rest: Bytes)
    requires |x| + 2 <= USIZE_MAX
    ensures var done := |terms| + 1 == e;
            Yields(Decode(Reading(AwaitingBulkString(|x|), terms, e), x + CRLF + rest),
                   if done then [terms + [x]] else [],
                   Decode(if done then Reading(Idle, [], e) else Reading(GraspingMarker, terms + [x], e), rest))
  {
    var w := x + CRLF + rest;
    assert w[..|x|] == x && w[|x| + 2..] == rest;
    Stepped(Reading(AwaitingBulkString(|x|), terms, e), w);
  }

  lemma LengthIsTaken(terms: seq<Bytes>, e: nat, w: Bytes, n: nat, i: nat)
    requires w != [] && w[0] == DOLLAR && i + 2 <= |w[1..]|
    requires FindCrlf(w[1..]) == Some(i) && ParseNat(w[1..][..i], USIZE_MAX) == Some(n)
    ensures Yields(Decode(Reading(GraspingMarker, terms, e), w), [],
                   Decode(Reading(AwaitingBulkString(n), terms, e), w[1..][i + 2..]))
  {
    var r0, r1 := Reading(GraspingMarker, terms, e), Reading(AwaitingBulkStringLength, terms, e);
    Stepped(r0, w);
    Stepped(r1, w[1..]);
  }

  /** A term the reader reads is the term the decoder takes. */
  lemma TermIsRead(terms: seq<Bytes>, e: nat, w: Bytes, x: Bytes, rest: Bytes)
    requires Resp.Read(w) == Some((Resp.Bulk(Some(x)), rest)) && |x| + 2 <= USIZE_MAX
    ensures var done := |terms| + 1 == e;
            Yields(Decode(Reading(GraspingMarker, terms, e), w), if done then [terms + [x]] else [],
                   Decode(if done then Reading(Idle, [], e) else Reading(GraspingMarker, terms + [x], e), rest))
  {
    var i := BulkRead(w, x, rest);
    LengthIsTaken(terms, e, w, |x|, i);
    TermIsTaken(terms, e, x, rest);
  }

  lemma ManyRead(w: Bytes, vs: seq<Resp.Resp>, rest: Bytes) returns (w1: Bytes)
    requires 0 < |vs| && Resp.ReadMany(w, |vs|) == Some((vs, rest))
    ensures Resp.Read(w) == Some((vs[0], w1)) && Resp.ReadMany(w1, |vs| - 1) == Some((vs[1..], rest))
  {
    w1 := Resp.Read(w).value.1;
  }

  /** The first term and then the others. */
  lemma TermThenTerms(d: Decoded, d1: Decoded, d2: Decoded, terms: seq<Bytes>, x: Bytes, more: seq<Bytes>)
    requires Yields(d, [], d1) && Yields(d1, [terms + [x] + more], d2)
    ensures Yields(d, [terms + ([x] + more)], d2)
  {
    var g := [terms + ([x] + more)];
    assert terms + [x] + more == terms + ([x] + more);
    YieldsOn(d, [], d1, g, d2);
    assert [] + g == g;
  }

  lemma {:induction false} TermsAreRead(terms: seq<Bytes>, e: nat, w: Bytes, vs: seq<Resp.Resp>, rest: Bytes)
    requires 0 < |vs| && |terms| + |vs| == e && Resp.ReadMany(w, |vs|) == Some((vs, rest))
    requires forall i :: 0 <= i < |vs| ==> IsTerm(vs[i])
    ensures Yields(Decode(Reading(GraspingMarker, terms, e), w), [terms + Terms(vs)],
                   Decode(Reading(Idle, [], e), rest))
    decreases |vs|
  {
    var w1 := ManyRead(w, vs, rest);
    var x, more := TermOf(vs[0]), vs[1..];
    TermIsRead(terms, e, w, x, w1);
    if more == [] {
      assert Terms(vs) == [x] && w1 == rest;
    } else {
      TermsAreRead(terms + [x], e, w1, more, rest);
      TermThenTerms(Decode(Reading(GraspingMarker, terms, e), w), Decode(Reading(GraspingMarker, terms + [x], e), w1),
                    Decode(Reading(Idle, [], e), rest), terms, x, Terms(more));
    }
  }

  /* ----- one request ----- */

  lemma CountRead(w: Bytes, vs: seq<Resp.Resp>, rest: Bytes) returns (i: nat)
    requires Resp.Read(w) == Some((Resp.Array(vs), rest))
    ensures w != [] && w[0] == STAR && i + 2 <= |w[1..]|
    ensures FindCrlf(w[1..]) == Some(i) && ParseNat(w[1..][..i], USIZE_MAX) == Some(|vs|)
    ensures Resp.ReadMany(w[1..][i + 2..], |vs|) == Some((vs, rest))
  {
    i := FindCrlf(w[1..]).value;
    var n := ParseNat(w[1..][..i], USIZE_MAX).value;
    ManyAreRead(w[1..][i + 2..], n);
  }

  lemma {:induction false} ManyAreRead(s: Bytes, n: nat)
    ensures Resp.ReadMany(s, n).Some? ==> |Resp.ReadMany(s, n).value.0| == n
    decreases n
  {
    if n > 0 && Resp.Read(s).Some? {
      ManyAreRead(Resp.Read(s).value.1, n - 1);
    }
  }

  lemma CountIsTaken(e: nat, w: Bytes, n: nat, i: nat)
    requires w != [] && w[0] == STAR && i + 2 <= |w[1..]|
    requires FindCrlf(w[1..]) == Some(i) && ParseNat(w[1..][..i], USIZE_MAX) == Some(n)
    ensures Yields(Decode(Reading(Idle, [], e), w), [],
                   Decode(Reading(if n == 0 then Idle else GraspingMarker, [], n), w[1..][i + 2..]))
  {
    var r0, r1 := Reading(Idle, [], e), Reading(AwaitingTermCount, [], e);
    Stepped(r0, w);
    Stepped(r1, w[1..]);
  }

  /** A request the reader reads is the command the decoder takes, or nothing if it has no terms. */
  lemma RequestIsRead(e: nat, w: Bytes, vs: seq<Resp.Resp>, rest: Bytes)
    requires Resp.Read(w) == Some((Resp.Array(vs), rest)) && IsRequest(Resp.Array(vs))
    ensures Yields(Decode(Reading(Idle, [], e), w), RoundTrip.Kept(Terms(vs)),
                   Decode(Reading(Idle, [], |vs|), rest))
  {
    var i := CountRead(w, vs, rest);
    CountIsTaken(e, w, |vs|, i);
    if vs != [] {
      TermsAreRead([], |vs|, w[1..][i + 2..], vs, rest);
      assert [] + Terms(vs) == Terms(vs);
    }
  }

  /** Every stream of requests is decoded to the end, and what is handed over is their commands. */
  lemma {:induction false} RequestsAreDecoded(e: nat, s: Bytes)
    requires Requests(s)
    ensures var d := Decode(Reading(Idle, [], e), s);
            Clean(d) && d.granted == Commands(Resp.ReadAll(s).value)
    decreases |s|
  {
    if s != [] {
      var (v, rest) := Resp.Read(s).value;
      var vs := Resp.ReadAll(s).value;
      assert vs[0] == v && vs[1..] == Resp.ReadAll(rest).value && IsRequest(vs[0]);
      RequestIsRead(e, s, v.items, rest);
      RequestsAreDecoded(|v.items|, rest);
    }
  }

  /* ----- and back ----- */

  /** Inside a command a clean decoding goes on. */
  lemma CleanTakes(r: Reading, w: Bytes)
    requires Clean(Decode(r, w)) && !r.phase.Idle?
    ensures Next(r, w).Took? && !Next(r, w).skipped
  {
  }

  lemma LengthTaken(terms: seq<Bytes>, e: nat, w: Bytes) returns (n: nat, i: nat)
    requires Clean(Decode(Reading(GraspingMarker, terms, e), w))
    ensures w != [] && w[0] == DOLLAR && i + 2 <= |w[1..]|
    ensures FindCrlf(w[1..]) == Some(i) && ParseNat(w[1..][..i], USIZE_MAX) == Some(n)
  {
    var r0, r1 := Reading(GraspingMarker, terms, e), Reading(AwaitingBulkStringLength, terms, e);
    CleanTakes(r0, w);
    Stepped(r0, w);
    var w1 := w[1..];
    CleanTakes(r1, w1);
    i := FindCrlf(w1).value;
    n := ParseNat(w1[..i], USIZE_MAX).value;
  }

  lemma BodyTaken(terms: seq<Bytes>, e: nat, n: nat, w: Bytes)
    requires Next(Reading(AwaitingBulkString(n), terms, e), w).Took?
    ensures n + 2 <= USIZE_MAX && n + 2 <= |w| && w[n..n + 2] == CRLF
  {
    assert w[n..n + 2] == [w[n], w[n + 1]];
  }

  lemma BulkIsRead(w: Bytes, i: nat, n: nat)
    requires w != [] && w[0] == DOLLAR && i + 2 <= |w[1..]|
    requires FindCrlf(w[1..]) == Some(i) && ParseNat(w[1..][..i], USIZE_MAX) == Some(n)
    requires var b := w[1..][i + 2..]; n + 2 <= |b| && b[n..n + 2] == CRLF
    ensures var b := w[1..][i + 2..]; Resp.Read(w) == Some((Resp.Bulk(Some(b[..n])), b[n + 2..]))
  {
    var line := w[1..][..i];
    assert line[0] != MINUS;
    assert Resp.Line(w[1..]) == Some((line, w[1..][i + 2..]));
  }

  lemma TermTaken(terms: seq<Bytes>, e: nat, w: Bytes) returns (x: Bytes, rest: Bytes)
    requires Clean(Decode(Reading(GraspingMarker, terms, e), w))
    ensures Resp.Read(w) == Some((Resp.Bulk(Some(x)), rest)) && |x| + 2 <= USIZE_MAX
  {
    var n, i := LengthTaken(terms, e, w);
    LengthIsTaken(terms, e, w, n, i);
    var b := w[1..][i + 2..];
    CleanTakes(Reading(AwaitingBulkString(n), terms, e), b);
    BodyTaken(terms, e, n, b);
    BulkIsRead(w, i, n);
    x, rest := b[..n], b[n + 2..];
  }

  lemma OneTermRead(w: Bytes, x: Bytes, rest: Bytes)
    requires Resp.Read(w) == Some((Resp.Bulk(Some(x)), rest))
    ensures Resp.ReadMany(w, 1) == Some(([Resp.Bulk(Some(x))], rest))
  {
    var v := Resp.Bulk(Some(x));
    assert Resp.ReadMany(rest, 0) == Some(([], rest));
    Resp.ReadManyStep(w, v, rest, [], rest);
    assert [v] + [] == [v];
  }

  lemma {:induction false} TermsTaken(terms: seq<Bytes>, e: nat, w: Bytes)
    returns (vs: seq<Resp.Resp>, rest: Bytes)
    requires |terms| < e && Clean(Decode(Reading(GraspingMarker, terms, e), w))
    ensures |terms| + |vs| == e && Resp.ReadMany(w, |vs|) == Some((vs, rest))
    ensures forall i :: 0 <= i < |vs| ==> IsTerm(vs[i])
    decreases e - |terms|
  {
    var x, w1 := TermTaken(terms, e, w);
    TermIsRead(terms, e, w, x, w1);
    if |terms| + 1 == e {
      OneTermRead(w, x, w1);
      vs, rest := [Resp.Bulk(Some(x))], w1;
    } else {
      var more;
      more, rest := TermsTaken(terms + [x], e, w1);
      vs := TermPrepended(w, x, w1, more, rest);
    }
  }

  lemma TermPrepended(w: Bytes, x: Bytes, w1: Bytes, more: seq<Resp.Resp>, rest: Bytes) returns (vs: seq<Resp.Resp>)
    requires Resp.Read(w) == Some((Resp.Bulk(Some(x)), w1)) && Resp.ReadMany(w1, |more|) == Some((more, rest))
    requires |x| + 2 <= USIZE_MAX && forall i :: 0 <= i < |more| ==> IsTerm(more[i])
    ensures |vs| == |more| + 1 && Resp.ReadMany(w, |vs|) == Some((vs, rest))
    ensures forall i :: 0 <= i < |vs| ==> IsTerm(vs[i])
  {
    var v := Resp.Bulk(Some(x));
    vs := [v] + more;
    Resp.ReadManyStep(w, v, w1, more, rest);
  }

  lemma CountTaken(e: nat, w: Bytes) returns (n: nat, i: nat)
    requires w != [] && Clean(Decode(Reading(Idle, [], e), w))
    ensures w != [] && w[0] == STAR && i + 2 <= |w[1..]|
    ensures FindCrlf(w[1..]) == Some(i) && ParseNat(w[1..][..i], USIZE_MAX) == Some(n)
  {
    var r0, r1 := Reading(Idle, [], e), Reading(AwaitingTermCount, [], e);
    assert Next(r0, w) == Took(1, r1, [], false);
    var w1 := w[1..];
    assert Decode(r1, w1).sin.None? && Decode(r1, w1).reading.phase.Idle?;
    i := FindCrlf(w1).value;
    n := ParseNat(w1[..i], USIZE_MAX).value;
  }

  lemma ArrayIsRead(w: Bytes, i: nat, vs: seq<Resp.Resp>, rest: Bytes)
    requires w != [] && w[0] == STAR && i + 2 <= |w[1..]|
    requires FindCrlf(w[1..]) == Some(i) && ParseNat(w[1..][..i], USIZE_MAX) == Some(|vs|)
    requires Resp.ReadMany(w[1..][i + 2..], |vs|) == Some((vs, rest))
    ensures Resp.Read(w) == Some((Resp.Array(vs), rest))
  {
    assert Resp.Line(w[1..]) == Some((w[1..][..i], w[1..][i + 2..]));
  }

  lemma ItemsTaken(n: nat, w: Bytes) returns (vs: seq<Resp.Resp>, rest: Bytes)
    requires n > 0 ==> Clean(Decode(Reading(GraspingMarker, [], n), w))
    ensures |vs| == n && Resp.ReadMany(w, n) == Some((vs, rest)) && IsRequest(Resp.Array(vs))
  {
    if n == 0 {
      vs, rest := [], w;
    } else {
      vs, rest := TermsTaken([], n, w);
    }
  }

  lemma RequestTaken(e: nat, w: Bytes) returns (vs: seq<Resp.Resp>, rest: Bytes)
    requires w != [] && Clean(Decode(Reading(Idle, [], e), w))
    ensures Resp.Read(w) == Some((Resp.Array(vs), rest)) && IsRequest(Resp.Array(vs))
  {
    var n, i := CountTaken(e, w);
    CountIsTaken(e, w, n, i);
    vs, rest := ItemsTaken(n, w[1..][i + 2..]);
    ArrayIsRead(w, i, vs, rest);
  }

  lemma {:induction false} CleanIsRequests(e: nat, w: Bytes)
    requires Clean(Decode(Reading(Idle, [], e), w))
    ensures Requests(w)
    decreases |w|
  {
    if w != [] {
      var vs, rest := RequestTaken(e, w);
      RequestIsRead(e, w, vs, rest);
      CleanIsRequests(|vs|, rest);
      assert Resp.ReadAll(w).value == [Resp.Array(vs)] + Resp.ReadAll(rest).value;
    }
  }

  /** The language of the decoder. It decodes a stream to its end, without failing and without skipping, if
      and only if a RESP2 reader reads the stream as arrays of present bulk strings; and then it hands over
      the arrays that have a term, in order. */
  lemma DecoderReadsRequests(s: Bytes)
    ensures Clean(Decode(START, s)) <==> Requests(s)
    ensures Requests(s) ==> Decode(START, s).granted == Commands(Resp.ReadAll(s).value)
  {
    if Clean(Decode(START, s)) {
      CleanIsRequests(0, s);
    }
    if Requests(s) {
      RequestsAreDecoded(0, s);
    }
  }

  /** However a quiet socket splits a stream of requests, wish never fails on it, and once it has been called
      often enough it has handed over their commands and waits between requests. The width of a step is that
      of a line or a term. */
  lemma RequestsAreServed(script: seq<Chunk>, n: nat)
    requires Quiet(script) && Requests(Pending(script))
    requires Decode(START, Pending(script)).widest <= LIMIT - MARGIN + 1
    ensures var (outcome, s) := Calls(Open(script), n);
            var cs := Commands(Resp.ReadAll(Pending(script)).value);
            && outcome.Fine? && s.granted <= cs
            && (Effort(script) <= n ==> s.granted == cs && s.reading.phase.Idle? && s.window == [])
  {
    DecoderReadsRequests(Pending(script));
    WellFormedIsServed(script, n);
    GrantedIsPrefix(script, n);
  }

  /* ----- where a stream stops being requests ----- */

  /** Behind whole requests the decoder goes on as on a new connection. */
  lemma GoesOnBehind(a: Bytes, t: Bytes) returns (e: nat)
    requires Requests(a)
    ensures Yields(Decode(START, a + t), Commands(Resp.ReadAll(a).value), Decode(Reading(Idle, [], e), t))
  {
    var d := Decode(START, a);
    RequestsAreDecoded(0, a);
    DecodeSplit(START, a, t);
    e := d.reading.expected;
    assert [] + t == t;
  }

  /** A byte that begins no array is blasphemy. */
  lemma StrayByte(a: Bytes, b: byte, more: Bytes)
    requires Requests(a) && b != STAR
    ensures var d := Decode(START, a + ([b] + more));
            d.sin == Some(Blasphemy) && d.skips == 0 && d.granted == Commands(Resp.ReadAll(a).value)
  {
    var e := GoesOnBehind(a, [b] + more);
    assert Next(Reading(Idle, [], e), [b] + more) == Sinful(Blasphemy);
  }

  /** A line that is no number fails to parse. */
  lemma BadLine(r: Reading, line: Bytes, more: Bytes)
    requires r.phase.AwaitingTermCount? || r.phase.AwaitingBulkStringLength?
    requires Resp.OneLine(line) && ParseNat(line, USIZE_MAX).None?
    ensures Next(r, line + CRLF + more) == Sinful(ParseError)
  {
    var w := line + CRLF + more;
    CrlfAfterLine(line, more);
    assert w[..|line|] == line;
  }

  lemma BadCount(a: Bytes, line: Bytes, more: Bytes)
    requires Requests(a) && Resp.OneLine(line) && ParseNat(line, USIZE_MAX).None?
    ensures var d := Decode(START, a + ([STAR] + (line + CRLF + more)));
            d.sin == Some(ParseError) && d.skips == 0 && d.granted == Commands(Resp.ReadAll(a).value)
  {
    var w1 := line + CRLF + more;
    var w := [STAR] + w1;
    var e := GoesOnBehind(a, w);
    var r0, r1 := Reading(Idle, [], e), Reading(AwaitingTermCount, [], e);
    assert w[1..] == w1;
    Stepped(r0, w);
    BadLine(r1, line, more);
  }

  function PrintedBulks(xs: seq<Bytes>): Bytes {
    if xs == [] then [] else Resp.Wire(Resp.Bulk(Some(xs[0]))) + PrintedBulks(xs[1..])
  }

  /** The printed beginning of a command: the number of its terms, and some of them. */
  function Begun(n: nat, terms: seq<Bytes>): Bytes {
    [STAR] + Decimal(n) + CRLF + PrintedBulks(terms)
  }

  predicate Beginning(n: nat, terms: seq<Bytes>) {
    |terms| < n <= USIZE_MAX && forall i :: 0 <= i < |terms| ==> |terms[i]| + 2 <= USIZE_MAX
  }

  lemma PrintedTerm(terms: seq<Bytes>, n: nat, x: Bytes, t: Bytes)
    requires |terms| + 1 < n && |x| + 2 <= USIZE_MAX
    ensures Yields(Decode(Reading(GraspingMarker, terms, n), Resp.Wire(Resp.Bulk(Some(x))) + t), [],
                   Decode(Reading(GraspingMarker, terms + [x], n), t))
  {
    Resp.ReadWireBulk(x, t);
    TermIsRead(terms, n, Resp.Wire(Resp.Bulk(Some(x))) + t, x, t);
  }

  lemma FirstPrinted(xs: seq<Bytes>, t: Bytes)
    requires xs != []
    ensures PrintedBulks(xs) + t == Resp.Wire(Resp.Bulk(Some(xs[0]))) + (PrintedBulks(xs[1..]) + t)
  {
  }

  lemma {:induction false} PrintedTerms(terms: seq<Bytes>, xs: seq<Bytes>, n: nat, t: Bytes, w: Bytes,
                                        all: seq<Bytes>)
    requires |all| < n && forall i :: 0 <= i < |xs| ==> |xs[i]| + 2 <= USIZE_MAX
    requires w == PrintedBulks(xs) + t && all == terms + xs
    ensures Yields(Decode(Reading(GraspingMarker, terms, n), w), [], Decode(Reading(GraspingMarker, all, n), t))
    decreases |xs|
  {
    if xs == [] {
      assert all == terms && w == t;
    } else {
      var w1 := PrintedBulks(xs[1..]) + t;
      FirstPrinted(xs, t);
      PrintedTerm(terms, n, xs[0], w1);
      assert all == terms + [xs[0]] + xs[1..];
      PrintedTerms(terms + [xs[0]], xs[1..], n, t, w1, all);
      YieldsOn(Decode(Reading(GraspingMarker, terms, n), w), [],
               Decode(Reading(GraspingMarker, terms + [xs[0]], n), w1), [],
               Decode(Reading(GraspingMarker, all, n), t));
    }
  }

  lemma PrintedCount(e: nat, n: nat, w: Bytes, body: Bytes)
    requires 0 < n <= USIZE_MAX && w == [STAR] + Decimal(n) + CRLF + body
    ensures Yields(Decode(Reading(Idle, [], e), w), [], Decode(Reading(GraspingMarker, [], n), body))
  {
    assert w[1..] == Decimal(n) + CRLF + body;
    RoundTrip.CountLine(n, body);
    CountIsTaken(e, w, n, |Decimal(n)|);
  }

  lemma PrintedLength(terms: seq<Bytes>, n: nat, len: nat, w: Bytes, body: Bytes)
    requires len <= USIZE_MAX && w == [DOLLAR] + Decimal(len) + CRLF + body
    ensures Yields(Decode(Reading(GraspingMarker, terms, n), w), [],
                   Decode(Reading(AwaitingBulkString(len), terms, n), body))
  {
    assert w[1..] == Decimal(len) + CRLF + body;
    RoundTrip.CountLine(len, body);
    LengthIsTaken(terms, n, w, len, |Decimal(len)|);
  }

  lemma NoLineEnd(r: Reading, x: Bytes, end: Bytes, more: Bytes)
    requires r.phase == AwaitingBulkString(|x|) && |x| + 2 <= USIZE_MAX && |end| == 2 && end != CRLF
    ensures Next(r, x + end + more) == Sinful(Blasphemy)
  {
    var w := x + end + more;
    assert w[|x|] == end[0] && w[|x| + 1] == end[1] && end == [end[0], end[1]];
  }

  lemma InsideCommand(a: Bytes, n: nat, terms: seq<Bytes>, t: Bytes)
    requires Requests(a) && Beginning(n, terms)
    ensures Yields(Decode(START, a + (Begun(n, terms) + t)), Commands(Resp.ReadAll(a).value),
                   Decode(Reading(GraspingMarker, terms, n), t))
  {
    var w, body := Begun(n, terms) + t, PrintedBulks(terms) + t;
    assert w == [STAR] + Decimal(n) + CRLF + body;
    var e := GoesOnBehind(a, w);
    PrintedCount(e, n, w, body);
    assert [] + terms == terms;
    PrintedTerms([], terms, n, t, body, terms);
    var cs, d := Commands(Resp.ReadAll(a).value), Decode(Reading(GraspingMarker, terms, n), t);
    var d0, d1 := Decode(Reading(Idle, [], e), w), Decode(Reading(GraspingMarker, [], n), body);
    YieldsOn(d0, [], d1, [], d);
    YieldsOn(Decode(START, a + w), cs, d0, [], d);
    assert cs + [] == cs;
  }

  /** Inside a command, a length that is no number fails to parse. */
  lemma BadLength(a: Bytes, n: nat, terms: seq<Bytes>, line: Bytes, more: Bytes)
    requires Requests(a) && Beginning(n, terms) && Resp.OneLine(line) && ParseNat(line, USIZE_MAX).None?
    ensures var d := Decode(START, a + (Begun(n, terms) + ([DOLLAR] + (line + CRLF + more))));
            d.sin == Some(ParseError) && d.skips == 0 && d.granted == Commands(Resp.ReadAll(a).value)
  {
    var w1 := line + CRLF + more;
    var w := [DOLLAR] + w1;
    InsideCommand(a, n, terms, w);
    var r0, r1 := Reading(GraspingMarker, terms, n), Reading(AwaitingBulkStringLength, terms, n);
    assert w[1..] == w1;
    Stepped(r0, w);
    BadLine(r1, line, more);
  }

  /** A term without a line end behind it is blasphemy. */
  lemma BadEnd(a: Bytes, n: nat, terms: seq<Bytes>, x: Bytes, end: Bytes, more: Bytes)
    requires Requests(a) && Beginning(n, terms) && |x| + 2 <= USIZE_MAX && |end| == 2 && end != CRLF
    ensures var d := Decode(START, a + (Begun(n, terms) + ([DOLLAR] + Decimal(|x|) + CRLF + (x + end + more))));
            d.sin == Some(Blasphemy) && d.skips == 0 && d.granted == Commands(Resp.ReadAll(a).value)
  {
    var w2 := x + end + more;
    var w := [DOLLAR] + Decimal(|x|) + CRLF + w2;
    InsideCommand(a, n, terms, w);
    PrintedLength(terms, n, |x|, w, w2);
    NoLineEnd(Reading(AwaitingBulkString(|x|), terms, n), x, end, more);
  }

  lemma {:induction false} JunkIsSkipped(terms: seq<Bytes>, n: nat, junk: Bytes, t: Bytes)
    requires DOLLAR !in junk
    ensures var r := Reading(GraspingMarker, terms, n);
            var d := Decode(r, t);
            var d' := Decode(r, junk + t);
            && d'.granted == d.granted && d'.sin == d.sin && d'.reading == d.reading && d'.rest == d.rest
            && d'.skips == |junk| + d.skips
    decreases |junk|
  {
    var r := Reading(GraspingMarker, terms, n);
    if junk == [] {
      assert junk + t == t;
    } else {
      assert (junk + t)[1..] == junk[1..] + t && (junk + t)[0] == junk[0];
      assert Next(r, junk + t) == Took(1, r, [], true);
      JunkIsSkipped(terms, n, junk[1..], t);
    }
  }

  /** What stands where a marker should be is dropped up to the next marker, and counted as skipped; it
      changes nothing else of what the stream decodes to. */
  lemma JunkComesToNothing(a: Bytes, n: nat, terms: seq<Bytes>, junk: Bytes, t: Bytes)
    requires Requests(a) && Beginning(n, terms) && DOLLAR !in junk
    ensures var d := Decode(START, a + (Begun(n, terms) + t));
            var d' := Decode(START, a + (Begun(n, terms) + (junk + t)));
            && d'.granted == d.granted && d'.sin == d.sin && d'.reading == d.reading && d'.rest == d.rest
            && d'.skips == |junk| + d.skips
  {
    InsideCommand(a, n, terms, t);
    InsideCommand(a, n, terms, junk + t);
    JunkIsSkipped(terms, n, junk, t);
  }
}
