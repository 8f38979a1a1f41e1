/** Laws of the list commands: LREM, the index arithmetic of LRANGE, LINDEX and LSET, and batch
    pushes and pops against single ones. */
module ListLaws {
  import opened Bytes
  import opened Numbers
  import opened Replies
  import opened Keyspace

  /* ----- LREM ----- */

  lemma {:induction false} CountAppend(s: seq<Bytes>, t: seq<Bytes>, x: Bytes)
    ensures Count(s + t, x) == Count(s, x) + Count(t, x)
  {
    if s == [] {
      assert s + t == t;
    } else {
      assert (s + t)[1..] == s[1..] + t;
      CountAppend(s[1..], t, x);
    }
  }

  lemma {:induction false} WithoutAppend(s: seq<Bytes>, t: seq<Bytes>, x: Bytes)
    ensures Without(s + t, x) == Without(s, x) + Without(t, x)
  {
    if s == [] {
      assert s + t == t;
    } else {
      assert (s + t)[1..] == s[1..] + t;
      WithoutAppend(s[1..], t, x);
      assert [s[0]] + (Without(s[1..], x) + Without(t, x)) == ([s[0]] + Without(s[1..], x)) + Without(t, x);
    }
  }

  /** Count counts, and Without takes out every x and nothing else. */
  lemma {:induction false} CountsAndTakesOut(s: seq<Bytes>, x: Bytes)
    ensures Count(s, x) == multiset(s)[x]
    ensures multiset(Without(s, x)) == multiset(s)[x := 0]
  {
    if s != [] {
      CountsAndTakesOut(s[1..], x);
      assert s == [s[0]] + s[1..];
    }
  }

  lemma {:induction false} ReverseAppend<T>(s: seq<T>, t: seq<T>)
    ensures Reverse(s + t) == Reverse(t) + Reverse(s)
  {
    if s == [] {
      assert s + t == t;
    } else {
      assert (s + t)[1..] == s[1..] + t;
      ReverseAppend(s[1..], t);
      assert Reverse(t) + (Reverse(s[1..]) + [s[0]]) == (Reverse(t) + Reverse(s[1..])) + [s[0]];
    }
  }

  lemma ReverseOne<T>(x: T)
    ensures Reverse([x]) == [x]
  {
    assert [x][1..] == [];
    assert Reverse<T>([]) == [];
  }

  lemma {:induction false} ReverseTwice<T>(s: seq<T>)
    ensures Reverse(Reverse(s)) == s && |Reverse(s)| == |s|
  {
    if s != [] {
      ReverseTwice(s[1..]);
      ReverseAppend(Reverse(s[1..]), [s[0]]);
      assert Reverse([s[0]]) == [s[0]];
    }
  }

  lemma {:induction false} CountReverse(s: seq<Bytes>, x: Bytes)
    ensures Count(Reverse(s), x) == Count(s, x)
  {
    if s != [] {
      CountReverse(s[1..], x);
      CountAppend(Reverse(s[1..]), [s[0]], x);
    }
  }

  /** r is s with the first k occurrences of x gone, k being all of those before a cut, and nothing
      else changed. */
  ghost predicate LosesFirst(s: seq<Bytes>, r: seq<Bytes>, k: nat, x: Bytes) {
    exists cut: nat :: cut <= |s| && Count(s[..cut], x) == k && r == Without(s[..cut], x) + s[cut..]
  }

  /** The same from the back. */
  ghost predicate LosesLast(s: seq<Bytes>, r: seq<Bytes>, k: nat, x: Bytes) {
    exists cut: nat :: cut <= |s| && Count(s[cut..], x) == k && r == s[..cut] + Without(s[cut..], x)
  }

  lemma CutMovesOn(s: seq<Bytes>, cut: nat, x: Bytes)
    requires cut < |s|
    ensures s[cut + 1..] == s[1..][cut..]
    ensures Without(s[..cut + 1], x) == (if s[0] == x then [] else [s[0]]) + Without(s[1..][..cut], x)
    ensures Count(s[..cut + 1], x) == (if s[0] == x then 1 else 0) + Count(s[1..][..cut], x)
  {
    assert s[..cut + 1][1..] == s[1..][..cut];
  }

  /** Where RemoveFirst stops looking. */
  ghost function FirstCut(s: seq<Bytes>, n: nat, x: Bytes): (cut: nat)
    ensures cut <= |s|
  {
    if s == [] || n == 0 then 0 else 1 + FirstCut(s[1..], if s[0] == x then n - 1 else n, x)
  }

  lemma {:induction false} RemoveFirstCuts(s: seq<Bytes>, n: nat, x: Bytes)
    ensures var cut := FirstCut(s, n, x);
            && Count(s[..cut], x) == Min(n, Count(s, x))
            && RemoveFirst(s, n, x) == Without(s[..cut], x) + s[cut..]
  {
    if s == [] || n == 0 {
      assert s[..0] == [] && s[0..] == s;
      assert Without(s[..0], x) + s[0..] == s;
    } else {
      var n' := if s[0] == x then n - 1 else n;
      RemoveFirstCuts(s[1..], n', x);
      CutMovesOn(s, FirstCut(s[1..], n', x), x);
    }
  }

  lemma RemoveFirstLoses(s: seq<Bytes>, n: nat, x: Bytes)
    ensures LosesFirst(s, RemoveFirst(s, n, x), Min(n, Count(s, x)), x)
  {
    RemoveFirstCuts(s, n, x);
    assert FirstCut(s, n, x) <= |s|;
  }

  lemma {:induction false} WithoutReverse(s: seq<Bytes>, x: Bytes)
    ensures Without(Reverse(s), x) == Reverse(Without(s, x))
  {
    if s != [] {
      WithoutReverse(s[1..], x);
      WithoutAppend(Reverse(s[1..]), [s[0]], x);
      if s[0] != x {
        ReverseAppend([s[0]], Without(s[1..], x));
        assert Reverse([s[0]]) == [s[0]];
      }
    }
  }

  /** Removing from the back is removing from the front of the mirror image. */
  lemma {:induction false} RemoveLastMirrors(s: seq<Bytes>, n: nat, x: Bytes)
    ensures RemoveLast(s, n, x) == Reverse(RemoveFirst(Reverse(s), n, x))
    decreases |s|
  {
    ReverseTwice(s);
    if s != [] && n != 0 {
      var k := |s| - 1;
      assert s == s[..k] + [s[k]];
      ReverseAppend(s[..k], [s[k]]);
      assert Reverse([s[k]]) == [s[k]];
      assert Reverse(s)[1..] == Reverse(s[..k]);
      if s[k] == x {
        RemoveLastMirrors(s[..k], n - 1, x);
      } else {
        RemoveLastMirrors(s[..k], n, x);
        ReverseAppend([s[k]], RemoveFirst(Reverse(s[..k]), n, x));
      }
    }
  }

  /** A cut seen from the other end. */
  lemma CutMirrors(s: seq<Bytes>, c: nat, x: Bytes)
    requires c <= |s|
    ensures var t, cut := Reverse(s), |s| - c;
            && |t| == |s| && Count(s[cut..], x) == Count(t[..c], x)
            && Reverse(Without(t[..c], x) + t[c..]) == s[..cut] + Without(s[cut..], x)
  {
    var t, cut := Reverse(s), |s| - c;
    assert s == s[..cut] + s[cut..];
    ReverseAppend(s[..cut], s[cut..]);
    ReverseTwice(s);
    ReverseTwice(s[..cut]);
    ReverseTwice(s[cut..]);
    assert t[..c] == Reverse(s[cut..]) && t[c..] == Reverse(s[..cut]);
    CountReverse(s[cut..], x);
    WithoutReverse(s[cut..], x);
    ReverseAppend(Reverse(Without(s[cut..], x)), Reverse(s[..cut]));
    ReverseTwice(Without(s[cut..], x));
  }

  lemma RemoveLastLoses(s: seq<Bytes>, n: nat, x: Bytes)
    ensures LosesLast(s, RemoveLast(s, n, x), Min(n, Count(s, x)), x)
  {
    var t, k := Reverse(s), Min(n, Count(s, x));
    ReverseTwice(s);
    CountReverse(s, x);
    RemoveLastMirrors(s, n, x);
    RemoveFirstLoses(t, n, x);
    var c: nat :| c <= |t| && Count(t[..c], x) == k && RemoveFirst(t, n, x) == Without(t[..c], x) + t[c..];
    CutMirrors(s, c, x);
  }

  /** The backward scan covers the whole list exactly up to 2^31 elements. */
  lemma ScanCoversAll(length: nat)
    ensures ScanLength(length) == length <==> length <= I32_MAX + 1
  {
  }

  /** LREM: a positive count takes the first matches, a negative one the last, zero all; as many as
      there are and no more than asked. The reply is their number. */
  lemma {:induction false} LremTakesMatches(s: seq<Bytes>, count: i32, x: Bytes)
    requires count < 0 ==> |s| <= I32_MAX + 1
    ensures var r := LremItems(s, count, x);
            var k := if count == 0 then Count(s, x)
                     else Min(if count < 0 then -(count as int) else count, Count(s, x));
            && (count >= 0 ==> LosesFirst(s, r, k, x))
            && (count <= 0 ==> LosesLast(s, r, k, x))
            && |s| - |r| == k
  {
    var n := if count < 0 then -(count as int) else count;
    if count < 0 {
      ScanCoversAll(|s|);
      assert s[..|s|] == s && s[|s|..] == [];
      RemoveLastLoses(s, n, x);
      LossIsCounted(s, RemoveLast(s, n, x), Min(n, Count(s, x)), x);
    } else if count > 0 {
      RemoveFirstLoses(s, n, x);
      LossIsCounted(s, RemoveFirst(s, n, x), Min(n, Count(s, x)), x);
    } else {
      assert s[..|s|] == s && s[0..] == s;
      assert Without(s, x) == Without(s[..|s|], x) + s[|s|..] == s[..0] + Without(s[0..], x);
    }
  }

  lemma LossIsCounted(s: seq<Bytes>, r: seq<Bytes>, k: nat, x: Bytes)
    requires LosesFirst(s, r, k, x) || LosesLast(s, r, k, x)
    ensures |s| - |r| == k
  {
  }

  /** On lists of any length, what a negative count takes are matches within the scan; so it takes as
      many as asked for exactly when the scan holds them. */
  lemma LremTakesScannedMatches(s: seq<Bytes>, count: i32, x: Bytes)
    requires count < 0
    ensures var taken, scanned := |s| - |LremItems(s, count, x)|, Count(s[..ScanLength(|s|)], x);
            && taken == Min(-(count as int), scanned)
            && (taken == Min(-(count as int), Count(s, x)) <==> scanned >= Min(-(count as int), Count(s, x)))
  {
    var n, k := ScanLength(|s|), -(count as int);
    PrefixHoldsFewer(s, n, x);
    LremFromBack(s, count, x);
    RemoveLastCounted(s[..n], k, x);
  }

  lemma LremFromBack(s: seq<Bytes>, count: i32, x: Bytes)
    requires count < 0
    ensures var n := ScanLength(|s|);
            |s| - |LremItems(s, count, x)| == |s[..n]| - |RemoveLast(s[..n], -(count as int), x)|
  {
  }

  lemma PrefixHoldsFewer(s: seq<Bytes>, n: nat, x: Bytes)
    requires n <= |s|
    ensures Count(s[..n], x) <= Count(s, x)
  {
    assert s == s[..n] + s[n..];
    CountAppend(s[..n], s[n..], x);
  }

  lemma RemoveLastCounted(s: seq<Bytes>, k: nat, x: Bytes)
    ensures |s| - |RemoveLast(s, k, x)| == Min(k, Count(s, x))
  {
    RemoveLastLoses(s, k, x);
    LossIsCounted(s, RemoveLast(s, k, x), Min(k, Count(s, x)), x);
  }

  /** LREM by -n is reverse, LREM by n, reverse. */
  lemma {:induction false} LremMirrors(s: seq<Bytes>, n: i32, x: Bytes)
    requires |s| <= I32_MAX + 1 && n > 0
    ensures LremItems(s, -n, x) == Reverse(LremItems(Reverse(s), n, x))
  {
    ScanCoversAll(|s|);
    assert s[..|s|] == s && s[|s|..] == [];
    RemoveLastMirrors(s, n, x);
  }

  /* ----- LRANGE, LINDEX, LSET ----- */

  /** The ends of LRANGE in unbounded arithmetic. */
  function Lo(length: nat, start: int): int {
    var i := if start < 0 then start + length else start;
    if i < 0 then 0 else i
  }

  function Hi(length: nat, end: int): int {
    var i := if end < 0 then end + length else end;
    if i >= length then length - 1 else i
  }

  lemma WrapFits(x: int)
    requires -0x8000_0000 <= x <= 0x7fff_ffff
    ensures Wrap32(x) == x
  {
  }

  /** LRANGE returns precisely the elements between the normalised ends. */
  lemma {:induction false} LrangeIsBetween(s: seq<Bytes>, start: i32, end: i32)
    requires |s| <= I32_MAX
    ensures var lo, hi := Lo(|s|, start), Hi(|s|, end);
            LrangeItems(s, start, end) == if lo <= hi then s[lo..hi + 1] else []
  {
    WrapFits(|s|);
    EndsFit(|s|, start, end);
    DifferenceWrapsPastTheEnd(|s|, start, end);
  }

  lemma EndsFit(length: nat, start: i32, end: i32)
    requires length <= I32_MAX
    ensures LrangeStart(length, start) == Lo(length, start) && LrangeEnd(length, end) == Hi(length, end)
  {
    WrapFits(length);
    WrapFits(length - 1);
    if start < 0 {
      WrapFits(start + length);
    }
    if end < 0 {
      WrapFits(end + length);
    }
  }

  /** The difference of the ends leaves i32 only for a start beyond the list. */
  lemma DifferenceWrapsPastTheEnd(length: nat, start: i32, end: i32)
    requires length <= I32_MAX
    ensures var d := Hi(length, end) - Lo(length, start);
            Wrap32(d) != d ==> Lo(length, start) > length && d < 0
  {
  }

  /** The bound is exact: LRANGE 0 -1 is the whole list if and only if its length fits an i32. */
  lemma LrangeAllIffShort(s: seq<Bytes>)
    ensures LrangeItems(s, 0, -1) == s <==> |s| <= I32_MAX
  {
  }

  /** On lists of any length LINDEX i is the sole element of LRANGE i i, or absent. */
  lemma LindexIsLrange(s: seq<Bytes>, i: i32)
    ensures match ItemAt(s, Position(|s|, i))
            case Some(x) => LrangeItems(s, i, i) == [x]
            case None => LrangeItems(s, i, i) == []
  {
  }

  /** The position an index names in unbounded arithmetic. */
  function Place(length: nat, index: int): Option<nat> {
    var i := if index < 0 then index + length else index;
    if 0 <= i < length then Some(i) else None
  }

  /** LINDEX and LSET share the bound: on a list that is not empty every index names the right position
      if and only if the length fits an i32. Beyond it -1 already goes astray. */
  lemma PlacesIffShort(length: nat)
    requires length > 0
    ensures (forall i: i32 :: Position(length, i) == Place(length, i)) <==> length <= I32_MAX
    ensures Position(length, -1) == Some(length - 1) <==> length <= I32_MAX
  {
    if length <= I32_MAX {
      forall i: i32 ensures Position(length, i) == Place(length, i) {
        WrapFits(length);
        if i < 0 {
          WrapFits(i + length);
        }
      }
    } else {
      assert Place(length, -1) == Some(length - 1);
    }
  }

  function LindexReply(m: Keyspace, k: Bytes, j: i32, now: Time): Reply {
    Exec(m, At(k, OnItems(Lindex(j))), now).1
  }

  /** A successful LSET changes what LINDEX answers at the position it names, under each of its two
      indexes, and nowhere else. */
  lemma LsetThenLindex(m: Keyspace, k: Bytes, i: i32, x: Bytes, j: i32, now: Time)
    requires Live(m, k, now).Some? && Live(m, k, now).value.value.List?
    requires Exec(m, At(k, OnItems(Lset(i, x))), now).1 == Exactly(InfoOk)
    ensures var length := |Live(m, k, now).value.value.items|;
            var m' := Exec(m, At(k, OnItems(Lset(i, x))), now).0;
            LindexReply(m', k, j, now) ==
            if Position(length, j) == Position(length, i) then Text(Some(x)) else LindexReply(m, k, j, now)
  {
  }

  /* ----- batches ----- */

  /** LPUSH or RPUSH of the elements one at a time; the answer is the last one's. */
  function PushEach(m: Keyspace, k: Bytes, side: Side, xs: seq<Bytes>, now: Time): (Keyspace, Reply)
    requires xs != []
    decreases |xs|
  {
    var step := Exec(m, At(k, Push(side, xs[..1])), now);
    if |xs| == 1 then step else PushEach(step.0, k, side, xs[1..], now)
  }

  /** Two commands on one key act one after the other on its entry, unless the first leaves a dead
      entry there. */
  lemma TwoOnOneKey(m: Keyspace, k: Bytes, op: Op, op': Op, now: Time)
    requires !PopsWrongType(m, k, op)
    requires var e := Act(op, Live(m, k, now), now).0;
             (e.Some? ==> !Dead(e.value, now)) && (op'.Pop? && e.Some? ==> e.value.value.List?)
    ensures var e, m1 := Act(op, Live(m, k, now), now).0, Exec(m, At(k, op), now).0;
            && Exec(m1, At(k, op'), now).0 == Store(m, k, Act(op', e, now).0)
            && Exec(m1, At(k, op'), now).1 == Act(op', e, now).1
  {
    var e := Act(op, Live(m, k, now), now).0;
    var m1 := Store(m, k, e);
    assert Exec(m, At(k, op), now).0 == m1;
    assert Live(m1, k, now) == e;
    var e' := Act(op', e, now).0;
    assert Store(m1, k, e') == Store(m, k, e');
  }

  lemma PushedInParts(side: Side, s: seq<Bytes>, x: seq<Bytes>, xs: seq<Bytes>)
    ensures Pushed(side, Pushed(side, s, x), xs) == Pushed(side, s, x + xs)
  {
    ReverseAppend(x, xs);
    assert Reverse(xs) + (Reverse(x) + s) == (Reverse(xs) + Reverse(x)) + s;
    assert (s + x) + xs == s + (x + xs);
  }

  lemma {:induction false} PushedLength(side: Side, s: seq<Bytes>, xs: seq<Bytes>)
    ensures |Pushed(side, s, xs)| == |s| + |xs|
  {
    ReverseTwice(xs);
  }

  lemma PushesInParts(side: Side, x: seq<Bytes>, xs: seq<Bytes>, e: Option<Entry>)
    ensures Pushes(side, xs, Pushes(side, x, e).0) == Pushes(side, x + xs, e)
  {
    var s := match e case Some(Entry(List(s), _)) => s case _ => [];
    PushedInParts(side, s, x, xs);
    PushedLength(side, s, x);
  }

  /** A batch push is its single pushes, whatever the key holds: nothing, a dead entry, a list, or a
      value of another type. */
  lemma {:induction false} PushIsPushEach(m: Keyspace, k: Bytes, side: Side, xs: seq<Bytes>, now: Time)
    requires xs != []
    ensures PushEach(m, k, side, xs, now) == Exec(m, At(k, Push(side, xs)), now)
    decreases |xs|
  {
    if |xs| == 1 {
      assert xs[..1] == xs;
    } else {
      var m1 := Exec(m, At(k, Push(side, xs[..1])), now).0;
      PushIsPushEach(m1, k, side, xs[1..], now);
      assert xs[..1] + xs[1..] == xs;
      PushesInParts(side, xs[..1], xs[1..], Live(m, k, now));
      TwoOnOneKey(m, k, Push(side, xs[..1]), Push(side, xs[1..]), now);
    }
  }

  lemma PopUndoesPushOnItems(side: Side, s: seq<Bytes>, xs: seq<Bytes>)
    ensures var t := Pushed(side, s, xs);
            |t| >= |xs| && Popped(side, t, |xs|) == Reverse(xs) && Unpopped(side, t, |xs|) == s
  {
    ReverseTwice(xs);
    PushedLength(side, s, xs);
    var t := Pushed(side, s, xs);
    if side.Right? {
      assert t[|t| - |xs|..] == xs;
    }
  }

  function ListEntry(s: seq<Bytes>, d: Option<nat>): Option<Entry> {
    if s == [] then None else Some(Entry(List(s), d))
  }

  lemma PopsOfList(side: Side, t: seq<Bytes>, n: nat, k: nat, d: Option<nat>)
    requires k == Min(n, |t|)
    ensures Pops(side, Some(n), Some(Entry(List(t), d))) ==
            (ListEntry(Unpopped(side, t, k), d), Table(Some(Present(Popped(side, t, k)))))
  {
  }

  lemma PopsUndoPushes(side: Side, s: seq<Bytes>, xs: seq<Bytes>, d: Option<nat>)
    ensures Pops(side, Some(|xs|), Some(Entry(List(Pushed(side, s, xs)), d))) ==
            (ListEntry(s, d), Table(Some(Present(Reverse(xs)))))
  {
    PopUndoesPushOnItems(side, s, xs);
    PopsOfList(side, Pushed(side, s, xs), |xs|, |xs|, d);
  }

  lemma {:induction false} PopsUndoPushesOnEntry(side: Side, xs: seq<Bytes>, e: Option<Entry>)
    requires e.Some? ==> e.value.value.List? && e.value.value.items != []
    ensures var e' := Pushes(side, xs, e).0;
            && e'.Some? && e'.value.value.List?
            && e'.value.deadline == if e.None? then None else e.value.deadline
    ensures Pops(side, Some(|xs|), Pushes(side, xs, e).0) == (e, Table(Some(Present(Reverse(xs)))))
  {
    match e {
      case None => PopsUndoPushes(side, [], xs, None);
      case Some(Entry(value, d)) => PopsUndoPushes(side, value.items, xs, d);
    }
  }

  /** Popping as many as were pushed, from the same side, returns them last in first out and restores
      the keyspace, but for a dead entry, which the push replaced. */
  lemma {:induction false} PopUndoesPush(m: Keyspace, k: Bytes, side: Side, xs: seq<Bytes>, now: Time)
    requires var e := Live(m, k, now); e.Some? ==> e.value.value.List? && e.value.value.items != []
    ensures var m1 := Exec(m, At(k, Push(side, xs)), now).0;
            var (m2, reply) := Exec(m1, At(k, Pop(side, Some(|xs|))), now);
            m2 == Touch(m, k, now) && reply == Table(Some(Present(Reverse(xs))))
  {
    var e := Live(m, k, now);
    PushThenPop(m, k, side, xs, |xs|, now);
    PopsUndoPushesOnEntry(side, xs, e);
    StoreWhatIsLive(m, k, now);
  }

  lemma PushLeavesList(side: Side, xs: seq<Bytes>, e: Option<Entry>)
    requires e.Some? ==> e.value.value.List?
    ensures var e' := Pushes(side, xs, e).0;
            && e'.Some? && e'.value.value.List?
            && e'.value.deadline == if e.None? then None else e.value.deadline
  {
  }

  lemma PushThenPop(m: Keyspace, k: Bytes, side: Side, xs: seq<Bytes>, n: nat, now: Time)
    requires var e := Live(m, k, now); e.Some? ==> e.value.value.List?
    ensures var m1, e1 := Exec(m, At(k, Push(side, xs)), now).0, Pushes(side, xs, Live(m, k, now)).0;
            && Exec(m1, At(k, Pop(side, Some(n))), now).0 == Store(m, k, Pops(side, Some(n), e1).0)
            && Exec(m1, At(k, Pop(side, Some(n))), now).1 == Pops(side, Some(n), e1).1
  {
    PushLeavesList(side, xs, Live(m, k, now));
    TwoOnOneKey(m, k, Push(side, xs), Pop(side, Some(n)), now);
  }

  /** n pops without a count. */
  function PopEach(m: Keyspace, k: Bytes, side: Side, n: nat, now: Time): (Keyspace, seq<Reply>) {
    if n == 0 then (m, [])
    else
      var (m1, r) := Exec(m, At(k, Pop(side, None)), now);
      var (m2, rs) := PopEach(m1, k, side, n - 1, now);
      (m2, [r] + rs)
  }

  /** The i-th single answer, read off the batch's answer. */
  function Single(batch: Reply, i: nat): Reply {
    match batch
    case Exactly(BulkStringArray(None)) => Text(None)
    case Exactly(BulkStringArray(Some(rows))) => Text(if i < |rows| then rows[i] else None)
    case _ => batch
  }

  /** The batch's answer as n single ones. */
  function Singles(batch: Reply, n: nat): seq<Reply> {
    seq(n, i requires 0 <= i < n => Single(batch, i))
  }

  /** The first pop, then the others as a batch. */
  lemma PopFirst(side: Side, s: seq<Bytes>, k: nat)
    requires 0 < k <= |s|
    ensures var t := Unpopped(side, s, 1);
            && |t| == |s| - 1 && |Popped(side, s, 1)| == 1
            && Popped(side, s, k) == Popped(side, s, 1) + Popped(side, t, k - 1)
            && Unpopped(side, s, k) == Unpopped(side, t, k - 1)
            && Popped(side, s, 1)[0] == (match side case Left => s[0] case Right => s[|s| - 1])
  {
    if side.Left? {
      assert s[..k] == s[..1] + s[1..][..k - 1];
    } else {
      var last := [s[|s| - 1]];
      var t := s[..|s| - 1];
      ReverseOne(s[|s| - 1]);
      assert s[|s| - 1..] == last;
      assert s[|s| - k..] == t[|t| - (k - 1)..] + last;
      ReverseAppend(t[|t| - (k - 1)..], last);
    }
  }

  /** On entries: popping n + 1 is popping once and then n, n being positive. */
  lemma PopsInParts(side: Side, n: nat, e: Option<Entry>)
    requires n > 0
    ensures var (e1, r1) := Pops(side, None, e);
            var (e2, r2) := Pops(side, Some(n), e1);
            var (e', r) := Pops(side, Some(n + 1), e);
            && e2 == e'
            && Singles(r, n + 1) == [r1] + Singles(r2, n)
  {
    if e.Some? && e.value.value.List? && e.value.value.items != [] {
      ListPopsInParts(side, n, e.value.value.items, e.value.deadline);
    }
  }

  lemma ListPopsInParts(side: Side, n: nat, s: seq<Bytes>, d: Option<nat>)
    requires n > 0 && s != []
    ensures var e := Some(Entry(List(s), d));
            var (e1, r1) := Pops(side, None, e);
            var (e2, r2) := Pops(side, Some(n), e1);
            var (e', r) := Pops(side, Some(n + 1), e);
            && e2 == e'
            && Singles(r, n + 1) == [r1] + Singles(r2, n)
  {
    var k := Min(n + 1, |s|);
    var t := Unpopped(side, s, 1);
    PopFirst(side, s, k);
    PopsOfList(side, s, n + 1, k, d);
    PopsOfList(side, t, n, k - 1, d);
    OnePopOfList(side, s, d);
    SinglesShift(Popped(side, s, 1), Popped(side, t, k - 1), n);
  }

  lemma OnePopOfList(side: Side, s: seq<Bytes>, d: Option<nat>)
    requires s != []
    ensures |Popped(side, s, 1)| == 1
    ensures Pops(side, None, Some(Entry(List(s), d))) ==
            (ListEntry(Unpopped(side, s, 1), d), Text(Some(Popped(side, s, 1)[0])))
  {
    PopFirst(side, s, 1);
  }

  lemma SinglesShift(x: seq<Bytes>, xs: seq<Bytes>, n: nat)
    requires |x| == 1
    ensures var r, r' := Table(Some(Present(x + xs))), Table(Some(Present(xs)));
            && Singles(r, n + 1) == [Text(Some(x[0]))] + Singles(r', n)
            && (xs == [] ==> Singles(Table(None), n) == Singles(r', n))
  {
  }

  /** The same on keyspaces. */
  lemma {:induction false} PopThenPops(m: Keyspace, k: Bytes, side: Side, n: nat, now: Time)
    requires n > 0
    ensures var (m1, r1) := Exec(m, At(k, Pop(side, None)), now);
            var (m2, r2) := Exec(m1, At(k, Pop(side, Some(n))), now);
            var (m', r) := Exec(m, At(k, Pop(side, Some(n + 1))), now);
            m2 == m' && Singles(r, n + 1) == [r1] + Singles(r2, n)
  {
    if PopsWrongType(m, k, Pop(side, None)) {
      SinglesOfWrongType(side, n);
    } else {
      PopsInParts(side, n, Live(m, k, now));
      PopThenPopsOnEntry(m, k, side, n, now);
    }
  }

  lemma SinglesOfWrongType(side: Side, n: nat)
    ensures Singles(WrongType(PopName(side)), n + 1) ==
            [WrongType(PopName(side))] + Singles(WrongType(PopName(side)), n)
  {
  }

  lemma PopThenPopsOnEntry(m: Keyspace, k: Bytes, side: Side, n: nat, now: Time)
    requires !PopsWrongType(m, k, Pop(side, None))
    ensures var (e1, r1) := Pops(side, None, Live(m, k, now));
            var (e2, r2) := Pops(side, Some(n), e1);
            var m1 := Exec(m, At(k, Pop(side, None)), now).0;
            && Exec(m, At(k, Pop(side, None)), now).1 == r1
            && Exec(m1, At(k, Pop(side, Some(n))), now).0 == Store(m, k, e2)
            && Exec(m1, At(k, Pop(side, Some(n))), now).1 == r2
            && Exec(m, At(k, Pop(side, Some(n + 1))), now).0 == Store(m, k, Pops(side, Some(n + 1), Live(m, k, now)).0)
            && Exec(m, At(k, Pop(side, Some(n + 1))), now).1 == Pops(side, Some(n + 1), Live(m, k, now)).1
  {
    TwoOnOneKey(m, k, Pop(side, None), Pop(side, Some(n)), now);
  }

  /** n pops are one pop with count n: the same keyspace, and the batch's rows one by one. With no
      pops at all the two part only where the batch cleans up: a dead list or an empty one. */
  lemma {:induction false} PopIsPopEach(m: Keyspace, k: Bytes, side: Side, n: nat, now: Time)
    ensures var (m1, rs) := PopEach(m, k, side, n, now);
            var (m2, r) := Exec(m, At(k, Pop(side, Some(n))), now);
            && rs == Singles(r, n)
            && (m1 == m2 <==>
                  !(n == 0 && k in m && m[k].value.List? && (Dead(m[k], now) || m[k].value.items == [])))
  {
    if n == 0 {
      NoPop(m, k, side, now);
    } else {
      PopIsPopEachWhenPositive(m, k, side, n, now);
    }
  }

  lemma {:induction false} PopIsPopEachWhenPositive(m: Keyspace, k: Bytes, side: Side, n: nat, now: Time)
    requires n > 0
    ensures var (m2, r) := Exec(m, At(k, Pop(side, Some(n))), now);
            PopEach(m, k, side, n, now) == (m2, Singles(r, n))
    decreases n
  {
    var m1 := Exec(m, At(k, Pop(side, None)), now).0;
    if n == 1 {
      assert PopEach(m1, k, side, 0, now) == (m1, []);
      OnePop(m, k, side, now);
      var r1 := Exec(m, At(k, Pop(side, None)), now).1;
      assert [r1] + [] == [r1];
    } else {
      PopIsPopEachWhenPositive(m1, k, side, n - 1, now);
      PopThenPops(m, k, side, n - 1, now);
    }
  }

  lemma OnePop(m: Keyspace, k: Bytes, side: Side, now: Time)
    ensures var (m1, r1) := Exec(m, At(k, Pop(side, None)), now);
            var (m2, r) := Exec(m, At(k, Pop(side, Some(1))), now);
            m1 == m2 && [r1] == Singles(r, 1)
  {
    OnePopOnEntry(side, Live(m, k, now));
  }

  lemma OnePopOnEntry(side: Side, e: Option<Entry>)
    ensures Pops(side, None, e).0 == Pops(side, Some(1), e).0
    ensures [Pops(side, None, e).1] == Singles(Pops(side, Some(1), e).1, 1)
  {
    match e {
      case None =>
      case Some(Entry(List(s), d)) =>
        if s == [] {
          OnePopOfNothing(side, d);
        } else {
          OnePopOfItems(side, s, d);
        }
      case Some(_) =>
    }
  }

  lemma OnePopOfNothing(side: Side, d: Option<nat>)
    ensures var e := Some(Entry(List([]), d));
            && Pops(side, None, e).0 == Pops(side, Some(1), e).0
            && [Pops(side, None, e).1] == Singles(Pops(side, Some(1), e).1, 1)
  {
    PopsOfList(side, [], 1, 0, d);
  }

  lemma OnePopOfItems(side: Side, s: seq<Bytes>, d: Option<nat>)
    requires s != []
    ensures var e := Some(Entry(List(s), d));
            && Pops(side, None, e).0 == Pops(side, Some(1), e).0
            && [Pops(side, None, e).1] == Singles(Pops(side, Some(1), e).1, 1)
  {
    OnePopOfList(side, s, d);
    PopsOfList(side, s, 1, 1, d);
    SinglesShift(Popped(side, s, 1), [], 0);
    assert Popped(side, s, 1) + [] == Popped(side, s, 1);
  }

  lemma NoPop(m: Keyspace, k: Bytes, side: Side, now: Time)
    ensures Exec(m, At(k, Pop(side, Some(0))), now).0 == m <==>
            !(k in m && m[k].value.List? && (Dead(m[k], now) || m[k].value.items == []))
  {
    match Live(m, k, now) {
      case Some(Entry(List(s), d)) =>
        assert Unpopped(side, s, 0) == s;
        assert m[k := Entry(List(s), d)] == m;
      case _ =>
    }
  }

  /** The key of a live list disappears exactly when the pop takes all its elements. */
  lemma KeyGoesWithLastElement(m: Keyspace, k: Bytes, side: Side, n: nat, now: Time)
    requires Live(m, k, now).Some? && Live(m, k, now).value.value.List?
    ensures k !in Exec(m, At(k, Pop(side, Some(n))), now).0 <==> |Live(m, k, now).value.value.items| <= n
  {
  }

  /** RPUSH k x, LREM k 0 x leave an empty list, and LPOP k 0 deletes it. */
  lemma PopOfNothingDeletes(k: Bytes, x: Bytes, now: Time)
    ensures var m1 := Exec(map[], At(k, Push(Right, [x])), now).0;
            var m2 := Exec(m1, At(k, OnItems(Lrem(0, x))), now).0;
            && m2 == map[k := Entry(List([]), None)]
            && Exec(m2, At(k, Pop(Left, Some(0))), now).0 == map[]
            && PopEach(m2, k, Left, 0, now).0 == m2
  {
    assert Pushed(Right, [], [x]) == [x];
    assert Without([x], x) == Without([], x);
    var e := Entry(List([]), None);
    assert map[k := Entry(List([x]), None)][k := e] == map[k := e];
    assert map[k := e] - {k} == map[];
  }
}
