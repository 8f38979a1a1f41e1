/** The request decoder of src/wish.rs as a reader of byte strings: what one step of the
    phase machine does with the bytes it can see, and what a one-shot decoder that sees
    a whole stream at once makes of it. */
module Decoder {
  import opened Bytes
  import opened Numbers

  datatype Phase =
    | Idle
    | AwaitingTermCount
    | GraspingMarker
    | AwaitingBulkStringLength
    | AwaitingBulkString(len: nat)

  /** Panic is no Sin of the source's: the worker that decodes goes down, and the connection with it. */
  datatype Sin = ParseError | Disconnected | Blasphemy | Panic

  /** A command is its list of terms, the command name first. */
  type Command = seq<Bytes>

  /** The decoding part of a connection's Virtue. */
  datatype Reading = Reading(phase: Phase, terms: seq<Bytes>, expected: nat)

  const START := Reading(Idle, [], 0)

  /** Between commands no terms are held; inside one there is always a term still to come. An announced
      length is a usize. */
  predicate PhaseInvariant(r: Reading) {
    && (if r.phase.Idle? || r.phase.AwaitingTermCount? then r.terms == [] else |r.terms| < r.expected)
    && (r.phase.AwaitingBulkString? ==> r.phase.len <= USIZE_MAX)
  }

  /** What the machine does with the visible bytes: nothing until more arrive, fail, or take
      some and hand over at most one command. A byte dropped in place of a marker is a skip. */
  datatype Step =
    | Starved
    | Sinful(sin: Sin)
    | Took(count: nat, next: Reading, granted: seq<Command>, skipped: bool)

  function Next(r: Reading, w: Bytes): (s: Step)
    ensures s.Took? ==> 0 < s.count <= |w|
    // The phase invariant is kept, and a granted command has exactly the announced number of
    // terms, at least one.
    ensures s.Took? && PhaseInvariant(r) ==>
              PhaseInvariant(s.next) && |s.granted| <= 1 &&
              (s.granted != [] ==> |s.granted[0]| == r.expected >= 1 && s.next.phase.Idle?)
  {
    if w == [] then Starved
    else match r.phase
      case Idle =>
        if w[0] == STAR then Took(1, r.(phase := AwaitingTermCount), [], false) else Sinful(Blasphemy)
      case AwaitingTermCount =>
        (match FindCrlf(w)
         case None => Starved
         case Some(i) =>
           match ParseNat(w[..i], USIZE_MAX)
           case None => Sinful(ParseError)
           case Some(n) =>
             Took(i + 2, Reading(if n == 0 then Idle else GraspingMarker, r.terms, n), [], false))
      case GraspingMarker =>
        if w[0] == DOLLAR then Took(1, r.(phase := AwaitingBulkStringLength), [], false)
        else Took(1, r, [], true)
      case AwaitingBulkStringLength =>
        (match FindCrlf(w)
         case None => Starved
         case Some(i) =>
           match ParseNat(w[..i], USIZE_MAX)
           case None => Sinful(ParseError)
           case Some(len) => Took(i + 2, r.(phase := AwaitingBulkString(len)), [], false))
      case AwaitingBulkString(len) =>
        // len + 2 leaves the usize: any window passes for long enough, and the look at w[len] panics.
        if len + 2 > USIZE_MAX then Sinful(Panic)
        else if |w| < len + 2 then Starved
        else if w[len] != CR || w[len + 1] != LF then Sinful(Blasphemy)
        else
          var terms := r.terms + [w[..len]];
          if |terms| == r.expected then Took(len + 2, Reading(Idle, [], r.expected), [terms], false)
          else Took(len + 2, Reading(GraspingMarker, terms, r.expected), [], false)
  }

  /** Everything one pass over a byte string yields: the commands, the failure if any, how many
      bytes were skipped, the most bytes one step took, and where it stopped. */
  datatype Decoded = Decoded(
    granted: seq<Command>, sin: Option<Sin>, skips: nat, widest: nat, reading: Reading, rest: Bytes)

  function Max(a: nat, b: nat): nat {
    if a < b then b else a
  }

  /** d, after a first part that granted g and skipped k with steps no wider than n. */
  function After(g: seq<Command>, k: nat, n: nat, d: Decoded): Decoded {
    d.(granted := g + d.granted, skips := k + d.skips, widest := Max(n, d.widest))
  }

  /** The one-shot decoder. */
  function Decode(r: Reading, w: Bytes): Decoded
    decreases |w|
  {
    match Next(r, w)
    case Starved => Decoded([], None, 0, 0, r, w)
    case Sinful(sin) => Decoded([], Some(sin), 0, 0, r, w)
    case Took(n, next, g, skipped) => After(g, if skipped then 1 else 0, n, Decode(next, w[n..]))
  }

  /** A step that was possible stays the same step when more bytes follow. */
  lemma NextIsStable(r: Reading, a: Bytes, b: Bytes)
    ensures !Next(r, a).Starved? ==> Next(r, a + b) == Next(r, a)
  {
    if !Next(r, a).Starved? {
      assert (a + b)[0] == a[0];
      if r.phase.AwaitingTermCount? || r.phase.AwaitingBulkStringLength? {
        CrlfIsStable(a, b);
        var i := FindCrlf(a).value;
        assert (a + b)[..i] == a[..i];
      } else if r.phase.AwaitingBulkString? && r.phase.len <= |a| {
        assert (a + b)[..r.phase.len] == a[..r.phase.len];
      }
    }
  }

  lemma CrlfIsStable(a: Bytes, b: Bytes)
    ensures FindCrlf(a).Some? ==> FindCrlf(a + b) == FindCrlf(a)
  {
    match FindCrlf(a) {
      case None =>
      case Some(i) =>
        assert forall j :: 0 <= j <= i + 1 ==> (a + b)[j] == a[j];
        assert (a + b)[i] == CR && (a + b)[i + 1] == LF;
    }
  }

  /** The machine panics on exactly two announced lengths, as soon as a byte follows them. */
  lemma PanicsOnHugeLengths(r: Reading, w: Bytes)
    requires PhaseInvariant(r)
    ensures Next(r, w) == Sinful(Panic) <==>
            r.phase.AwaitingBulkString? && r.phase.len in {USIZE_MAX - 1, USIZE_MAX} && w != []
  {
  }

  /** A step that takes n bytes looks at no others: fewer visible bytes can starve only a step
      that needs more than they are. */
  lemma StarvedIsShort(r: Reading, a: Bytes, b: Bytes)
    requires Next(r, a).Starved? && Next(r, a + b).Took?
    ensures |a| < Next(r, a + b).count
  {
  }

  /** The heart of split independence: decoding a stream is decoding any prefix of it and then
      going on from where that stopped. A failure is final. */
  lemma {:induction false} DecodeSplit(r: Reading, a: Bytes, b: Bytes)
    ensures var d := Decode(r, a);
            Decode(r, a + b) ==
            if d.sin.Some? then d.(rest := d.rest + b)
            else After(d.granted, d.skips, d.widest, Decode(d.reading, d.rest + b))
    decreases |a|
  {
    NextIsStable(r, a, b);
    match Next(r, a) {
      case Starved =>
        AfterNothing(Decode(r, a + b));
      case Sinful(_) =>
      case Took(n, next, g, skipped) =>
        var k := if skipped then 1 else 0;
        assert (a + b)[n..] == a[n..] + b;
        var d := Decode(next, a[n..]);
        DecodeSplit(next, a[n..], b);
        assert Decode(r, a) == After(g, k, n, d);
        assert Decode(r, a + b) == After(g, k, n, Decode(next, a[n..] + b));
        AfterAfter(g, k, n, d.granted, d.skips, d.widest, Decode(d.reading, d.rest + b));
    }
  }

  lemma AfterNothing(d: Decoded)
    ensures After([], 0, 0, d) == d
  {
  }

  lemma AfterAfter(g: seq<Command>, k: nat, n: nat, g': seq<Command>, k': nat, n': nat, d: Decoded)
    ensures After(g, k, n, After(g', k', n', d)) == After(g + g', k + k', Max(n, n'), d)
  {
  }
}
