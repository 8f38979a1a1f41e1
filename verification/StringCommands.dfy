/** What the string and counter commands do to what is stored under a key, and answer. */
module StringCommands {
  import opened Bytes
  import opened Numbers
  import opened Replies
  import opened Keyspace
  import opened Entries

  /** GET and STRLEN answer the text and its length, and change nothing. */
  lemma GetAnswers(m: Keyspace, k: Bytes, now: Time, s: Bytes, d: Option<nat>)
    requires Shows(m, k, now, Str(s), d)
    ensures Exec(m, At(k, OnString(Get)), now).0 == m
    ensures Exec(m, At(k, OnString(Get)), now).1 == Exactly(BulkString(Some(s)))
    ensures Exec(m, At(k, OnString(Strlen)), now).0 == m
    ensures Exec(m, At(k, OnString(Strlen)), now).1 == Exactly(Length(|s|))
  {
    StoreBack(m, k);
  }

  /** APPEND puts its text behind what is there, keeps the deadline and answers the new length. */
  lemma AppendExtends(m: Keyspace, k: Bytes, now: Time, s: Bytes, d: Option<nat>, suffix: Bytes)
    requires Shows(m, k, now, Str(s), d)
    ensures Exec(m, At(k, OnString(Append(suffix))), now).0 == m[k := Entry(Str(s + suffix), d)]
    ensures Exec(m, At(k, OnString(Append(suffix))), now).1 == Exactly(Length(|s| + |suffix|))
  {
  }

  /** Where there is nothing to see GET answers nothing, STRLEN zero, and APPEND stores its text. */
  lemma NoString(m: Keyspace, k: Bytes, now: Time, suffix: Bytes)
    requires Hidden(m, k, now)
    ensures Exec(m, At(k, OnString(Get)), now).0 == m - {k} == Exec(m, At(k, OnString(Strlen)), now).0
    ensures Exec(m, At(k, OnString(Get)), now).1 == Exactly(BulkString(None))
    ensures Exec(m, At(k, OnString(Strlen)), now).1 == Exactly(Length(0))
    ensures Exec(m, At(k, OnString(Append(suffix))), now).0 == m[k := Entry(Str(suffix), None)]
    ensures Exec(m, At(k, OnString(Append(suffix))), now).1 == Exactly(Length(|suffix|))
  {
  }

  /** On a value of another type each answers the wrong type under its own name and changes nothing. */
  lemma NotAString(m: Keyspace, k: Bytes, now: Time, v: Value, d: Option<nat>, suffix: Bytes)
    requires Shows(m, k, now, v, d) && !v.Str?
    ensures Exec(m, At(k, OnString(Get)), now).0 == m == Exec(m, At(k, OnString(Strlen)), now).0
    ensures Exec(m, At(k, OnString(Append(suffix))), now).0 == m
    ensures Exec(m, At(k, OnString(Get)), now).1 == Exactly(Error(IncorrectUsage(GET)))
    ensures Exec(m, At(k, OnString(Strlen)), now).1 == Exactly(Error(IncorrectUsage(STRLEN)))
    ensures Exec(m, At(k, OnString(Append(suffix))), now).1 == Exactly(Error(IncorrectUsage(APPEND)))
  {
    StoreBack(m, k);
  }

  /** What was appended can be read behind what was there, in one piece. */
  lemma AppendThenGet(m: Keyspace, k: Bytes, now: Time, s: Bytes, d: Option<nat>, a: Bytes, b: Bytes)
    requires Shows(m, k, now, Str(s), d)
    ensures var m1 := Exec(m, At(k, OnString(Append(a))), now).0;
            var m2 := Exec(m1, At(k, OnString(Append(b))), now).0;
            && Exec(m2, At(k, OnString(Get)), now).1 == Exactly(BulkString(Some(s + a + b)))
            && m2 == Exec(m, At(k, OnString(Append(a + b))), now).0
  {
    var m1 := Exec(m, At(k, OnString(Append(a))), now).0;
    AppendExtends(m, k, now, s, d, a);
    AppendExtends(m1, k, now, s + a, d, b);
    AppendExtends(m, k, now, s, d, a + b);
    var m2 := Exec(m1, At(k, OnString(Append(b))), now).0;
    assert s + a + b == s + (a + b);
    assert m[k := Entry(Str(s + a), d)][k := Entry(Str(s + a + b), d)] == m[k := Entry(Str(s + a + b), d)];
    GetAnswers(m2, k, now, s + a + b, d);
  }

  /* ----- counters ----- */

  /** What INCR, DECR and INCRBY add. */
  function Amounts(op: CounterOp): int {
    match op
    case Incr => 1
    case Decr => -1
    case IncrBy(n) => n
  }

  /** On a text that is a number they store the sum as its decimal text, keep the deadline and answer the sum.
      The text may not be that of the least i64, and the sum must be an i64. */
  lemma CounterAdds(m: Keyspace, k: Bytes, now: Time, s: Bytes, d: Option<nat>, n: int, op: CounterOp)
    requires Shows(m, k, now, Str(s), d) && ParseInt(s, I64_MAX) == Some(n) && I64_MIN <= n + Amounts(op) <= I64_MAX
    ensures Exec(m, At(k, OnCounter(op)), now).0 == m[k := Entry(Str(SignedDecimal(n + Amounts(op))), d)]
    ensures Exec(m, At(k, OnCounter(op)), now).1 == Exactly(Number(n + Amounts(op)))
  {
  }

  /** On any other text, and on a value of another type, they answer that it is no integer and change
      nothing. */
  lemma CounterRefuses(m: Keyspace, k: Bytes, now: Time, v: Value, d: Option<nat>, op: CounterOp)
    requires Shows(m, k, now, v, d)
    requires v.Str? && ParseInt(v.bytes, I64_MAX).Some? ==>
               !(I64_MIN <= ParseInt(v.bytes, I64_MAX).value + Amounts(op) <= I64_MAX)
    ensures Exec(m, At(k, OnCounter(op)), now).0 == m
    ensures Exec(m, At(k, OnCounter(op)), now).1 ==
            Exactly(Error(IncorrectUsage(match op case Incr => INCR case Decr => DECR case IncrBy(_) => INCRBY)))
  {
    StoreBack(m, k);
  }

  /** On a key with nothing to see they start from zero, without a deadline. */
  lemma CounterStarts(m: Keyspace, k: Bytes, now: Time, op: CounterOp)
    requires Hidden(m, k, now)
    ensures Exec(m, At(k, OnCounter(op)), now).0 == m[k := Entry(Str(SignedDecimal(Amounts(op))), None)]
    ensures Exec(m, At(k, OnCounter(op)), now).1 == Exactly(Number(Amounts(op)))
  {
  }

  /** What a counter answers can be read as its text, and counted on from there. */
  lemma CountThenGet(m: Keyspace, k: Bytes, now: Time, n: int, d: Option<nat>, op: CounterOp)
    requires Shows(m, k, now, Str(SignedDecimal(n)), d)
    requires I64_MIN < n <= I64_MAX && I64_MIN <= n + Amounts(op) <= I64_MAX
    ensures var m' := Exec(m, At(k, OnCounter(op)), now).0;
            && Exec(m, At(k, OnCounter(op)), now).1 == Exactly(Number(n + Amounts(op)))
            && Shows(m', k, now, Str(SignedDecimal(n + Amounts(op))), d)
            && Exec(m', At(k, OnString(Get)), now).1 == Exactly(BulkString(Some(SignedDecimal(n + Amounts(op)))))
  {
    ParsePrinted(n, I64_MAX);
    CounterAdds(m, k, now, SignedDecimal(n), d, n, op);
    var m', next := Exec(m, At(k, OnCounter(op)), now).0, n + Amounts(op);
    GetAnswers(m', k, now, SignedDecimal(next), d);
  }
}
