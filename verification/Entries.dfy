/** What there is to see under a key, and how long: deadlines, and the commands that set, show and end
    them. */
module Entries {
  import opened Bytes
  import opened Numbers
  import opened Replies
  import opened Keyspace

  /** The key holds this value, and its deadline, if it has one, has not passed. */
  predicate Shows(m: Keyspace, k: Bytes, now: Time, v: Value, d: Option<nat>) {
    k in m && m[k] == Entry(v, d) && (d.Some? ==> now <= d.value)
  }

  /** There is nothing under the key, or only what is past its deadline. */
  predicate Hidden(m: Keyspace, k: Bytes, now: Time) {
    k in m ==> m[k].deadline.Some? && m[k].deadline.value < now
  }

  lemma StoreBack(m: Keyspace, k: Bytes)
    requires k in m
    ensures m[k := m[k]] == m
  {
  }

  /* ----- deadlines ----- */

  /** SET stores its value, whatever the key held, with just the deadline it names. */
  lemma SetStores(m: Keyspace, k: Bytes, now: Time, v: Value, d: Option<nat>)
    ensures Exec(m, At(k, Put(v, d)), now).0 == m[k := Entry(v, d)]
    ensures Exec(m, At(k, Put(v, d)), now).1 == Exactly(InfoOk)
  {
  }

  /** A string can be read up to its deadline, the second of the deadline included, and no longer; a read
      behind it finds nothing and removes the entry. */
  lemma SeenUntilDeadline(m: Keyspace, k: Bytes, now: Time, v: Bytes, d: Option<nat>, later: Time)
    ensures var m' := Exec(m, At(k, Put(Str(v), d)), now).0;
            var seen := d.None? || later <= d.value;
            && Exec(m', At(k, OnString(Get)), later).1 == Exactly(BulkString(if seen then Some(v) else None))
            && Exec(m', At(k, OnString(Get)), later).0 == (if seen then m' else m' - {k})
            && Exec(m', Exists([k]), later).1 == Exactly(Amount(if seen then 1 else 0))
  {
    var m' := m[k := Entry(Str(v), d)];
    assert m'[k := Entry(Str(v), d)] == m';
    OneKeyExists(m', k, later);
  }

  lemma OneKeyExists(m: Keyspace, k: Bytes, now: Time)
    ensures Exec(m, Exists([k]), now).1 == Exactly(Amount(if Live(m, k, now).Some? then 1 else 0))
  {
    assert [k][1..] == [];
    assert ExistsAll(Touch(m, k, now), [], now).1 == 0;
  }

  /** EXPIRE gives what is there a new deadline, and says whether there was anything. */
  lemma ExpireSets(m: Keyspace, k: Bytes, now: Time, v: Value, d: Option<nat>, expiry: nat)
    requires Shows(m, k, now, v, d)
    ensures Exec(m, At(k, OnDeadline(Expire(expiry))), now).0 == m[k := Entry(v, Some(expiry))]
    ensures Exec(m, At(k, OnDeadline(Expire(expiry))), now).1 == Exactly(Amount(1))
  {
  }

  /** TTL answers the seconds left, -1 without a deadline, and changes nothing. */
  lemma TtlCountsDown(m: Keyspace, k: Bytes, now: Time, v: Value, d: Option<nat>)
    requires Shows(m, k, now, v, d) && (d.Some? ==> d.value <= I64_MAX)
    ensures Exec(m, At(k, OnDeadline(Ttl)), now).0 == m
    ensures Exec(m, At(k, OnDeadline(Ttl)), now).1 == Exactly(Number(if d.None? then -1 else d.value - now))
  {
    StoreBack(m, k);
  }

  /** Where there is nothing to see EXPIRE answers 0 and TTL -2, and both remove what is past its deadline. */
  lemma NoDeadline(m: Keyspace, k: Bytes, now: Time, expiry: nat)
    requires Hidden(m, k, now)
    ensures Exec(m, At(k, OnDeadline(Expire(expiry))), now).0 == m - {k}
    ensures Exec(m, At(k, OnDeadline(Expire(expiry))), now).1 == Exactly(Amount(0))
    ensures Exec(m, At(k, OnDeadline(Ttl)), now).0 == m - {k}
    ensures Exec(m, At(k, OnDeadline(Ttl)), now).1 == Exactly(Number(-2))
  {
  }

  /** The deadline set by SET or by EXPIRE is the one TTL counts down to and the key ends at. */
  lemma ExpireThenTtl(m: Keyspace, k: Bytes, now: Time, v: Value, d: Option<nat>, expiry: nat, later: Time)
    requires Shows(m, k, now, v, d) && expiry <= I64_MAX
    ensures var m' := Exec(m, At(k, OnDeadline(Expire(expiry))), now).0;
            Exec(m', At(k, OnDeadline(Ttl)), later).1 ==
            Exactly(Number(if later <= expiry then expiry - later else -2))
  {
  }

  lemma SetThenTtl(m: Keyspace, k: Bytes, now: Time, v: Value, d: Option<nat>, later: Time)
    requires d.Some? ==> d.value <= I64_MAX
    ensures var m' := Exec(m, At(k, Put(v, d)), now).0;
            Exec(m', At(k, OnDeadline(Ttl)), later).1 ==
            Exactly(Number(if d.None? then -1 else if later <= d.value then d.value - later else -2))
  {
  }

  /** Every other command keeps the deadline of what it changes, and gives none to what it creates. */
  lemma DeadlineIsKept(m: Keyspace, k: Bytes, now: Time, op: Op)
    requires !op.Put? && !(op.OnDeadline? && op.deadlineOp.Expire?)
    ensures var m' := Exec(m, At(k, op), now).0;
            && (k in m && (m[k].deadline.Some? ==> now <= m[k].deadline.value) && k in m' ==>
                  m'[k].deadline == m[k].deadline)
            && (Hidden(m, k, now) && !op.Pop? && k in m' ==> m'[k].deadline == None)
  {
    match op {
      case OnString(_) =>
      case OnCounter(_) =>
      case OnHash(_) =>
      case Push(_, _) =>
      case Pop(_, _) =>
      case OnItems(_) =>
      case OnSet(_) =>
      case OnDeadline(_) =>
    }
  }
}
