/** What the list commands do to a stored list and answer, told in plain sequences. */
module ListCommands {
  import opened Bytes
  import opened Numbers
  import opened Replies
  import opened Keyspace
  import opened Entries
  import opened ListLaws

  /** LLEN. */
  lemma LlenCounts(m: Keyspace, k: Bytes, now: Time, s: seq<Bytes>, d: Option<nat>)
    requires Shows(m, k, now, List(s), d)
    ensures Exec(m, At(k, OnItems(Llen)), now).0 == m
    ensures Exec(m, At(k, OnItems(Llen)), now).1 == Exactly(Length(|s|))
  {
    StoreBack(m, k);
  }

  /** LRANGE answers the elements from its first end to its second, both counted, from the back if negative,
      and cut to the list. */
  lemma LrangeAnswers(m: Keyspace, k: Bytes, now: Time, s: seq<Bytes>, d: Option<nat>, start: i32, end: i32)
    requires Shows(m, k, now, List(s), d) && |s| <= I32_MAX
    ensures var lo, hi := Lo(|s|, start), Hi(|s|, end);
            var between := if lo <= hi then s[lo..hi + 1] else [];
            && Exec(m, At(k, OnItems(Lrange(start, end))), now).1 == Table(Some(Present(between)))
            && Exec(m, At(k, OnItems(Lrange(start, end))), now).0 == m
  {
    LrangeIsBetween(s, start, end);
    StoreBack(m, k);
  }

  /** LINDEX answers the element at its index, counted from the back if negative, or nothing. */
  lemma LindexAnswers(m: Keyspace, k: Bytes, now: Time, s: seq<Bytes>, d: Option<nat>, index: i32)
    requires Shows(m, k, now, List(s), d) && |s| <= I32_MAX
    ensures var i := if index < 0 then index + |s| else index;
            && Exec(m, At(k, OnItems(Lindex(index))), now).1 ==
               Exactly(BulkString(if 0 <= i < |s| then Some(s[i]) else None))
            && Exec(m, At(k, OnItems(Lindex(index))), now).0 == m
  {
    OnShortLists(s, index);
    StoreBack(m, k);
  }

  lemma OnShortLists(s: seq<Bytes>, index: i32)
    requires |s| <= I32_MAX
    ensures Position(|s|, index) == Place(|s|, index)
  {
    if s != [] {
      PlacesIffShort(|s|);
    }
  }

  /** LSET replaces the element there and keeps the deadline; an index outside the list is an error that
      changes nothing. */
  lemma LsetReplaces(m: Keyspace, k: Bytes, now: Time, s: seq<Bytes>, d: Option<nat>, index: i32, x: Bytes)
    requires Shows(m, k, now, List(s), d) && |s| <= I32_MAX
    ensures var i := if index < 0 then index + |s| else index;
            var m', r := Exec(m, At(k, OnItems(Lset(index, x))), now).0, Exec(m, At(k, OnItems(Lset(index, x))), now).1;
            if 0 <= i < |s| then m' == m[k := Entry(List(s[i := x]), d)] && r == Exactly(InfoOk)
            else m' == m && r == Exactly(Error(IncorrectUsage(LSET)))
  {
    OnShortLists(s, index);
    StoreBack(m, k);
  }

  lemma LremStores(m: Keyspace, k: Bytes, now: Time, s: seq<Bytes>, d: Option<nat>, count: i32, x: Bytes,
                   r: seq<Bytes>, gone: nat)
    requires Shows(m, k, now, List(s), d) && r == LremItems(s, count, x) && |s| - |r| == gone
    ensures Exec(m, At(k, OnItems(Lrem(count, x))), now).0 == m[k := Entry(List(r), d)]
    ensures Exec(m, At(k, OnItems(Lrem(count, x))), now).1 == Exactly(Length(gone))
  {
  }

  /** How many of the elements asked for LREM takes. */
  function Gone(s: seq<Bytes>, count: i32, x: Bytes): nat {
    if count == 0 then Count(s, x) else Min(if count < 0 then -(count as int) else count, Count(s, x))
  }

  /** LREM leaves the list without the first, the last or all of the elements asked for, keeps the deadline
      and answers how many have gone. */
  lemma LremRemoves(m: Keyspace, k: Bytes, now: Time, s: seq<Bytes>, d: Option<nat>, count: i32, x: Bytes)
    returns (r: seq<Bytes>)
    requires Shows(m, k, now, List(s), d) && (count < 0 ==> |s| <= I32_MAX + 1)
    ensures Exec(m, At(k, OnItems(Lrem(count, x))), now).0 == m[k := Entry(List(r), d)]
    ensures Exec(m, At(k, OnItems(Lrem(count, x))), now).1 == Exactly(Length(Gone(s, count, x)))
    ensures count >= 0 ==> LosesFirst(s, r, Gone(s, count, x), x)
    ensures count <= 0 ==> LosesLast(s, r, Gone(s, count, x), x)
  {
    r := LremTakes(s, count, x);
    LremStores(m, k, now, s, d, count, x, r, Gone(s, count, x));
  }

  lemma LremTakes(s: seq<Bytes>, count: i32, x: Bytes) returns (r: seq<Bytes>)
    requires count < 0 ==> |s| <= I32_MAX + 1
    ensures r == LremItems(s, count, x) && |s| - |r| == Gone(s, count, x)
    ensures count >= 0 ==> LosesFirst(s, r, Gone(s, count, x), x)
    ensures count <= 0 ==> LosesLast(s, r, Gone(s, count, x), x)
  {
    r := LremItems(s, count, x);
    LremTakesMatches(s, count, x);
  }

  /** RPUSH puts its elements behind the list in their order, LPUSH in front of it in the opposite order; both
      keep the deadline and answer the new length. */
  lemma PushExtends(m: Keyspace, k: Bytes, now: Time, s: seq<Bytes>, d: Option<nat>, side: Side, xs: seq<Bytes>)
    returns (t: seq<Bytes>)
    requires Shows(m, k, now, List(s), d)
    ensures Exec(m, At(k, Push(side, xs)), now).0 == m[k := Entry(List(t), d)]
    ensures Exec(m, At(k, Push(side, xs)), now).1 == Exactly(Length(|s| + |xs|))
    ensures Extended(t, s, side, xs)
  {
    t := Pushed(side, s, xs);
    PushedAt(side, s, xs);
  }

  /** t is s with xs at one side, the last of them outermost. */
  ghost predicate Extended(t: seq<Bytes>, s: seq<Bytes>, side: Side, xs: seq<Bytes>) {
    && |t| == |s| + |xs|
    && match side
       case Left => t[|xs|..] == s && forall i :: 0 <= i < |xs| ==> t[i] == xs[|xs| - 1 - i]
       case Right => t == s + xs
  }

  lemma PushedAt(side: Side, s: seq<Bytes>, xs: seq<Bytes>)
    ensures Extended(Pushed(side, s, xs), s, side, xs)
  {
    PushedLength(side, s, xs);
    ReverseTwice(xs);
    forall i | 0 <= i < |xs| ensures Reverse(xs)[i] == xs[|xs| - 1 - i] {
      ReverseAt(xs, i);
    }
  }

  lemma {:induction false} ReverseAt(s: seq<Bytes>, i: nat)
    requires i < |s|
    ensures |Reverse(s)| == |s| && Reverse(s)[i] == s[|s| - 1 - i]
  {
    ReverseTwice(s);
    ReverseTwice(s[1..]);
    if i < |s| - 1 {
      ReverseAt(s[1..], i);
    }
  }

  /** On a key with nothing to see both make a new list, without a deadline. */
  lemma PushCreates(m: Keyspace, k: Bytes, now: Time, side: Side, xs: seq<Bytes>) returns (t: seq<Bytes>)
    requires Hidden(m, k, now)
    ensures Exec(m, At(k, Push(side, xs)), now).0 == m[k := Entry(List(t), None)]
    ensures Exec(m, At(k, Push(side, xs)), now).1 == Exactly(Length(|xs|))
    ensures Extended(t, [], side, xs)
  {
    t := Pushed(side, [], xs);
    PushedAt(side, [], xs);
  }

  /** The elements a pop takes and leaves. */
  ghost predicate Split(s: seq<Bytes>, side: Side, n: nat, out: seq<Bytes>, left: seq<Bytes>) {
    && |out| == n && n + |left| == |s|
    && match side
       case Left => s == out + left
       case Right => s[..|left|] == left && forall i :: 0 <= i < n ==> out[i] == s[|s| - 1 - i]
  }

  /** LPOP and RPOP with a count take as many elements as there are, up to the count, from their side, answer
      them in the order taken, and leave the others with the deadline; a list left empty goes with its key. */
  lemma PopTakes(m: Keyspace, k: Bytes, now: Time, s: seq<Bytes>, d: Option<nat>, side: Side, count: nat)
    returns (out: seq<Bytes>, left: seq<Bytes>)
    requires Shows(m, k, now, List(s), d)
    ensures Split(s, side, if count < |s| then count else |s|, out, left)
    ensures Exec(m, At(k, Pop(side, Some(count))), now).0 ==
            if left == [] then m - {k} else m[k := Entry(List(left), d)]
    ensures Exec(m, At(k, Pop(side, Some(count))), now).1 == Table(Some(Present(out)))
  {
    var n := Min(count, |s|);
    out, left := Popped(side, s, n), Unpopped(side, s, n);
    PopsOfList(side, s, count, n, d);
    PoppedSplits(side, s, n);
  }

  lemma PoppedSplits(side: Side, s: seq<Bytes>, n: nat)
    requires n <= |s|
    ensures Split(s, side, n, Popped(side, s, n), Unpopped(side, s, n))
  {
    if side.Right? {
      var last := s[|s| - n..];
      ReverseTwice(last);
      forall i | 0 <= i < n ensures Reverse(last)[i] == s[|s| - 1 - i] {
        ReverseAt(last, i);
      }
    }
  }

  /** Without a count they take one element, the first or the last, and answer it by itself. */
  lemma PopTakesOne(m: Keyspace, k: Bytes, now: Time, s: seq<Bytes>, d: Option<nat>)
    requires Shows(m, k, now, List(s), d)
    ensures Exec(m, At(k, Pop(Left, None)), now).1 == Exactly(BulkString(if s == [] then None else Some(s[0])))
    ensures Exec(m, At(k, Pop(Right, None)), now).1 == Exactly(BulkString(if s == [] then None else Some(s[|s| - 1])))
    ensures Exec(m, At(k, Pop(Left, None)), now).0 ==
            if |s| <= 1 then m - {k} else m[k := Entry(List(s[1..]), d)]
    ensures Exec(m, At(k, Pop(Right, None)), now).0 ==
            if |s| <= 1 then m - {k} else m[k := Entry(List(s[..|s| - 1]), d)]
  {
  }

  /** What they answer when there is nothing to see under the key. */
  lemma NoList(m: Keyspace, k: Bytes, now: Time, op: ItemOp)
    requires Hidden(m, k, now)
    ensures Exec(m, At(k, OnItems(op)), now).0 == m - {k}
    ensures Exec(m, At(k, OnItems(op)), now).1 ==
            match op
            case Llen => Exactly(Length(0))
            case Lrange(_, _) => Exactly(BulkStringArray(Some([])))
            case Lindex(_) => Exactly(BulkString(None))
            case Lset(_, _) => Exactly(Error(IncorrectUsage(LSET)))
            case Lrem(_, _) => Exactly(Length(0))
  {
  }

  /** Pops look at the type before they look at the deadline: on anything but a list they answer the wrong
      type, on a list past its deadline that there is nothing. */
  lemma PopsLookAtTypeFirst(m: Keyspace, k: Bytes, now: Time, side: Side, count: Option<nat>)
    requires k in m && !m[k].value.List?
    ensures Exec(m, At(k, Pop(side, count)), now).0 == m
    ensures Exec(m, At(k, Pop(side, count)), now).1 ==
            Exactly(Error(IncorrectUsage(if side == Left then LPOP else RPOP)))
  {
  }

  lemma NothingToPop(m: Keyspace, k: Bytes, now: Time, side: Side, count: Option<nat>)
    requires Hidden(m, k, now) && (k in m ==> m[k].value.List?)
    ensures Exec(m, At(k, Pop(side, count)), now).0 == m - {k}
    ensures Exec(m, At(k, Pop(side, count)), now).1 ==
            Exactly(if count.Some? then BulkStringArray(None) else BulkString(None))
  {
  }

  /** On a value of another type they answer the wrong type under their own name and change nothing. */
  lemma NotAList(m: Keyspace, k: Bytes, now: Time, v: Value, d: Option<nat>, op: ItemOp, side: Side, xs: seq<Bytes>)
    requires Shows(m, k, now, v, d) && !v.List?
    ensures Exec(m, At(k, OnItems(op)), now).0 == m
    ensures Exec(m, At(k, OnItems(op)), now).1 ==
            Exactly(Error(IncorrectUsage(match op
                                         case Llen => LLEN
                                         case Lrange(_, _) => LRANGE
                                         case Lindex(_) => LINDEX
                                         case Lset(_, _) => LSET
                                         case Lrem(_, _) => LREM)))
    ensures Exec(m, At(k, Push(side, xs)), now).0 == m
    ensures Exec(m, At(k, Push(side, xs)), now).1 ==
            Exactly(Error(IncorrectUsage(if side == Left then LPUSH else RPUSH)))
  {
    StoreBack(m, k);
  }
}
