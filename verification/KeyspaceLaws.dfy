/** Conservation laws over whole runs in which other keys may be used freely: counters hold the sum
    of their successful deltas, sets have the size their replies add up to. */
module KeyspaceLaws {
  import opened Bytes
  import opened Numbers
  import opened Replies
  import opened Keyspace
  import opened LazyExpiry

  /* ----- commands leave other keys alone ----- */

  predicate Names(c: Request, k: Bytes) {
    match c
    case At(key, _) => key == k
    case Del(keys) => k in keys
    case Exists(keys) => k in keys
    case Mget(keys) => k in keys
    case Mset(terms) => Sets(terms, k)
  }

  /** k is in a key position of MSET's key-value pairs. */
  predicate Sets(terms: seq<Bytes>, k: Bytes)
    decreases |terms|
  {
    |terms| >= 2 && (terms[0] == k || Sets(terms[2..], k))
  }

  /** Two keyspaces hold the same under a key. */
  predicate SameAt(m: Keyspace, m': Keyspace, k: Bytes) {
    (k in m <==> k in m') && (k in m ==> m[k] == m'[k])
  }

  lemma {:induction false} DelFrame(m: Keyspace, keys: seq<Bytes>, k: Bytes, now: Time)
    requires k !in keys
    ensures SameAt(m, DelAll(m, keys, now).0, k)
    decreases |keys|
  {
    if keys != [] {
      DelFrame(m - {keys[0]}, keys[1..], k, now);
    }
  }

  lemma {:induction false} ExistsFrame(m: Keyspace, keys: seq<Bytes>, k: Bytes, now: Time)
    requires k !in keys
    ensures SameAt(m, ExistsAll(m, keys, now).0, k)
    decreases |keys|
  {
    if keys != [] {
      ExistsFrame(Touch(m, keys[0], now), keys[1..], k, now);
    }
  }

  lemma {:induction false} MgetFrame(m: Keyspace, keys: seq<Bytes>, k: Bytes, now: Time)
    requires k !in keys
    ensures SameAt(m, MgetAll(m, keys, now).0, k)
    decreases |keys|
  {
    if keys != [] {
      MgetFrame(Touch(m, keys[0], now), keys[1..], k, now);
    }
  }

  lemma {:induction false} MsetFrame(m: Keyspace, terms: seq<Bytes>, k: Bytes)
    requires !Sets(terms, k)
    ensures SameAt(m, MsetAll(m, terms), k)
    decreases |terms|
  {
    if |terms| >= 2 {
      MsetFrame(m[terms[0] := Entry(Str(terms[1]), None)], terms[2..], k);
    }
  }

  /** A command changes nothing under a key it does not name. */
  lemma ExecFrame(m: Keyspace, c: Request, k: Bytes, now: Time)
    requires !Names(c, k)
    ensures SameAt(m, Exec(m, c, now).0, k)
  {
    match c {
      case At(_, _) =>
      case Del(keys) => DelFrame(m, keys, k, now);
      case Exists(keys) => ExistsFrame(m, keys, k, now);
      case Mget(keys) => MgetFrame(m, keys, k, now);
      case Mset(terms) => MsetFrame(m, terms, k);
    }
  }

  /* ----- counters ----- */

  predicate IsCounterOn(c: Request, k: Bytes) {
    c.At? && c.key == k && c.op.OnCounter?
  }

  /** A run that touches k by INCR, DECR and INCRBY only. */
  predicate CountsOn(run: seq<Timed>, k: Bytes) {
    forall i :: 0 <= i < |run| && Names(run[i].request, k) ==> IsCounterOn(run[i].request, k)
  }

  function ReplyAt(m: Keyspace, run: seq<Timed>, i: nat): Reply
    requires i < |run|
  {
    Exec(LazyState(m, run, i), run[i].request, run[i].now).1
  }

  predicate IsNumber(r: Reply) {
    r.Exactly? && r.response.Number?
  }

  /** The sum of the deltas on k that succeeded before step i. */
  function Total(m: Keyspace, run: seq<Timed>, k: Bytes, i: nat): int
    requires i <= |run| && CountsOn(run, k)
  {
    if i == 0 then 0
    else
      var c := run[i - 1].request;
      Total(m, run, k, i - 1) +
      if IsCounterOn(c, k) && IsNumber(ReplyAt(m, run, i - 1)) then Delta(c.op.counterOp) else 0
  }

  /** Whether k has been used at all before step i. */
  predicate Used(run: seq<Timed>, k: Bytes, i: nat)
    requires i <= |run|
  {
    exists j :: 0 <= j < i && Names(run[j].request, k)
  }

  /** When a delta succeeds on a counter: always on a key not used yet; later, unless the stored text
      is i64's minimum, which the parser refuses, or the sum leaves i64. */
  predicate DeltaFits(used: bool, total: int, delta: int) {
    used ==> total != I64_MIN && I64_MIN <= total + delta <= I64_MAX
  }

  /** What the keyspace holds under a counter's key. */
  predicate Holds(s: Keyspace, k: Bytes, used: bool, total: int) {
    && (k in s <==> used)
    && (used ==> s[k] == Entry(Str(SignedDecimal(total)), None))
    && (!used ==> total == 0)
    && I64_MIN <= total <= I64_MAX
  }

  /** Counters over whole runs: k holds exactly the decimal text of the sum of the successful deltas,
      and nothing before its first use; each delta succeeds exactly when it fits, answering the new
      sum, and one that fails leaves the keyspace unchanged. */
  lemma CounterHoldsTotal(m: Keyspace, run: seq<Timed>, k: Bytes, i: nat)
    requires i <= |run| && CountsOn(run, k) && k !in m
    ensures var s, total := LazyState(m, run, i), Total(m, run, k, i);
            && Holds(s, k, Used(run, k, i), total)
            && (i < |run| && IsCounterOn(run[i].request, k) ==>
                  var delta := Delta(run[i].request.op.counterOp);
                  if DeltaFits(Used(run, k, i), total, delta)
                  then ReplyAt(m, run, i) == Exactly(Number(total + delta))
                  else !IsNumber(ReplyAt(m, run, i)) && LazyState(m, run, i + 1) == s)
  {
    CounterHolds(m, run, k, i);
    if i < |run| && IsCounterOn(run[i].request, k) {
      var s, total := LazyState(m, run, i), Total(m, run, k, i);
      CounterOnEntry(s, k, Used(run, k, i), total, run[i].request.op.counterOp, run[i].now);
    }
  }

  lemma {:induction false} CounterHolds(m: Keyspace, run: seq<Timed>, k: Bytes, i: nat)
    requires i <= |run| && CountsOn(run, k) && k !in m
    ensures Holds(LazyState(m, run, i), k, Used(run, k, i), Total(m, run, k, i))
    decreases i
  {
    if i > 0 {
      CounterHolds(m, run, k, i - 1);
      CounterStep(m, run, k, i - 1);
    }
  }

  lemma {:induction false} CounterStep(m: Keyspace, run: seq<Timed>, k: Bytes, i: nat)
    requires i < |run| && CountsOn(run, k)
    requires Holds(LazyState(m, run, i), k, Used(run, k, i), Total(m, run, k, i))
    ensures Holds(LazyState(m, run, i + 1), k, Used(run, k, i + 1), Total(m, run, k, i + 1))
  {
    var s, t, total := LazyState(m, run, i), run[i], Total(m, run, k, i);
    assert Used(run, k, i + 1) <==> Used(run, k, i) || Names(run[i].request, k);
    if Names(t.request, k) {
      CounterOnEntry(s, k, Used(run, k, i), total, t.request.op.counterOp, t.now);
    } else {
      ExecFrame(s, t.request, k, t.now);
    }
  }

  lemma CounterOnEntry(s: Keyspace, k: Bytes, used: bool, total: int, op: CounterOp, now: Time)
    requires Holds(s, k, used, total)
    ensures var s', r := Exec(s, At(k, OnCounter(op)), now).0, Exec(s, At(k, OnCounter(op)), now).1;
            if DeltaFits(used, total, Delta(op))
            then r == Exactly(Number(total + Delta(op))) && Holds(s', k, true, total + Delta(op))
            else !IsNumber(r) && s' == s
  {
    assert Live(s, k, now) == if used then Some(Entry(Str(SignedDecimal(total)), None)) else None;
    if used {
      CounterSum(total, Delta(op));
      assert s[k := s[k]] == s;
    }
  }

  lemma CounterSum(total: int, delta: int)
    requires I64_MIN <= total <= I64_MAX
    ensures Sum(SignedDecimal(total), delta) ==
            if total != I64_MIN && I64_MIN <= total + delta <= I64_MAX then Some(total + delta) else None
  {
    ParsePrinted(total, I64_MAX);
  }

  /* ----- sets ----- */

  predicate IsSetOn(c: Request, k: Bytes) {
    c.At? && c.key == k && c.op.OnSet?
  }

  /** A run that touches k by the set commands only. */
  predicate CollectsOn(run: seq<Timed>, k: Bytes) {
    forall i :: 0 <= i < |run| && Names(run[i].request, k) ==> IsSetOn(run[i].request, k)
  }

  function Answered(r: Reply): nat {
    if r.Exactly? && r.response.Length? then r.response.length else 0
  }

  /** What a set command's answer says about the size: SADD's adds, SREM's takes away. */
  function Gain(op: SetOp, r: Reply): int {
    if op.Sadd? then Answered(r) else if op.Srem? then -(Answered(r) as int) else 0
  }

  /** The SADD replies less the SREM replies on k before step i. */
  function Balance(m: Keyspace, run: seq<Timed>, k: Bytes, i: nat): int
    requires i <= |run| && CollectsOn(run, k)
  {
    if i == 0 then 0
    else
      var c := run[i - 1].request;
      Balance(m, run, k, i - 1) + if IsSetOn(c, k) then Gain(c.op.setOp, ReplyAt(m, run, i - 1)) else 0
  }

  /** The stored size under k, zero if nothing is there. */
  predicate HasSize(s: Keyspace, k: Bytes, n: int) {
    if k in s then s[k].value.Members? && s[k].deadline.None? && |s[k].value.members| == n else n == 0
  }

  lemma HeadFirst(s: set<Bytes>, values: seq<Bytes>)
    requires values != []
    ensures (s + {values[0]}) + SetOf(values[1..]) == s + SetOf(values)
    ensures (s - {values[0]}) - SetOf(values[1..]) == s - SetOf(values)
  {
  }

  lemma {:induction false} AddedIsGrowth(s: set<Bytes>, values: seq<Bytes>)
    ensures |s + SetOf(values)| == |s| + Added(s, values)
    decreases |values|
  {
    if values == [] {
      assert s + SetOf(values) == s;
    } else {
      var s1 := s + {values[0]};
      AddedIsGrowth(s1, values[1..]);
      HeadFirst(s, values);
      if values[0] in s {
        assert s1 == s;
      }
    }
  }

  lemma {:induction false} RemovedIsShrinkage(s: set<Bytes>, values: seq<Bytes>)
    ensures |s - SetOf(values)| == |s| - Removed(s, values)
    decreases |values|
  {
    if values == [] {
      assert s - SetOf(values) == s;
    } else {
      var s1 := s - {values[0]};
      RemovedIsShrinkage(s1, values[1..]);
      HeadFirst(s, values);
      if values[0] !in s {
        assert s1 == s;
      }
    }
  }

  function MembersIn(e: Option<Entry>): set<Bytes> {
    match e
    case Some(Entry(Members(s), _)) => s
    case _ => {}
  }

  lemma SetActCounts(op: SetOp, e: Option<Entry>)
    requires e.Some? ==> e.value.value.Members? && e.value.deadline.None?
    ensures |MembersIn(OnSets(op, e).0)| == |MembersIn(e)| + Gain(op, OnSets(op, e).1)
    ensures var e' := OnSets(op, e).0; e'.Some? ==> e'.value.value.Members? && e'.value.deadline.None?
  {
    match op {
      case Sadd(values) => SaddCounts(values, e);
      case Srem(values) => SremCounts(values, e);
      case _ =>
    }
  }

  lemma SaddCounts(values: seq<Bytes>, e: Option<Entry>)
    requires e.Some? ==> e.value.value.Members?
    ensures |MembersIn(OnSets(Sadd(values), e).0)| == |MembersIn(e)| + Gain(Sadd(values), OnSets(Sadd(values), e).1)
  {
    AddedIsGrowth(MembersIn(e), values);
    assert {} + SetOf(values) == SetOf(values);
  }

  lemma SremCounts(values: seq<Bytes>, e: Option<Entry>)
    requires e.Some? ==> e.value.value.Members?
    ensures |MembersIn(OnSets(Srem(values), e).0)| == |MembersIn(e)| + Gain(Srem(values), OnSets(Srem(values), e).1)
  {
    RemovedIsShrinkage(MembersIn(e), values);
  }

  lemma SetOnEntry(s: Keyspace, k: Bytes, n: int, op: SetOp, now: Time)
    requires HasSize(s, k, n)
    ensures var s', r := Exec(s, At(k, OnSet(op)), now).0, Exec(s, At(k, OnSet(op)), now).1;
            HasSize(s', k, n + Gain(op, r))
  {
    SetActCounts(op, Live(s, k, now));
  }

  /** Sets over whole runs: the stored size is what the replies add up to. */
  lemma {:induction false} SetSizeIsBalance(m: Keyspace, run: seq<Timed>, k: Bytes, i: nat)
    requires i <= |run| && CollectsOn(run, k) && k !in m
    ensures HasSize(LazyState(m, run, i), k, Balance(m, run, k, i))
    decreases i
  {
    if i > 0 {
      SetSizeIsBalance(m, run, k, i - 1);
      SetStep(m, run, k, i - 1);
    }
  }

  lemma SetStep(m: Keyspace, run: seq<Timed>, k: Bytes, i: nat)
    requires i < |run| && CollectsOn(run, k)
    requires HasSize(LazyState(m, run, i), k, Balance(m, run, k, i))
    ensures HasSize(LazyState(m, run, i + 1), k, Balance(m, run, k, i + 1))
  {
    var s, t := LazyState(m, run, i), run[i];
    if Names(t.request, k) {
      SetOnEntry(s, k, Balance(m, run, k, i), t.request.op.setOp, t.now);
    } else {
      ExecFrame(s, t.request, k, t.now);
    }
  }

  /* ----- an empty set is never stored ----- */

  predicate NoEmptySet(m: Keyspace) {
    forall k :: k in m ==> m[k].value != Members({})
  }

  /** What the command wrappers let through: SADD with a value, SET with a string. */
  predicate Admissible(c: Request) {
    c.At? ==> (c.op.OnSet? && c.op.setOp.Sadd? ==> c.op.setOp.values != [])
              && (c.op.Put? ==> c.op.value.Str?)
  }

  lemma {:induction false} MsetKeepsNoEmptySet(m: Keyspace, terms: seq<Bytes>)
    requires NoEmptySet(m)
    ensures NoEmptySet(MsetAll(m, terms))
    decreases |terms|
  {
    if |terms| >= 2 {
      MsetKeepsNoEmptySet(m[terms[0] := Entry(Str(terms[1]), None)], terms[2..]);
    }
  }

  /** m' holds nothing that m does not. */
  predicate Within(m': Keyspace, m: Keyspace) {
    forall k :: k in m' ==> k in m && m'[k] == m[k]
  }

  lemma {:induction false} DelOnlyRemoves(m: Keyspace, keys: seq<Bytes>, now: Time)
    ensures Within(DelAll(m, keys, now).0, m)
    decreases |keys|
  {
    if keys != [] {
      DelOnlyRemoves(m - {keys[0]}, keys[1..], now);
    }
  }

  lemma {:induction false} ExistsOnlyRemoves(m: Keyspace, keys: seq<Bytes>, now: Time)
    ensures Within(ExistsAll(m, keys, now).0, m)
    decreases |keys|
  {
    if keys != [] {
      ExistsOnlyRemoves(Touch(m, keys[0], now), keys[1..], now);
    }
  }

  lemma {:induction false} MgetOnlyRemoves(m: Keyspace, keys: seq<Bytes>, now: Time)
    ensures Within(MgetAll(m, keys, now).0, m)
    decreases |keys|
  {
    if keys != [] {
      MgetOnlyRemoves(Touch(m, keys[0], now), keys[1..], now);
    }
  }

  lemma ActKeepsNoEmptySet(op: Op, e: Option<Entry>, now: Time)
    requires Admissible(At([], op)) && (e.Some? ==> e.value.value != Members({}))
    ensures var e' := Act(op, e, now).0; e'.Some? ==> e'.value.value != Members({})
  {
  }

  /** No admitted command ever stores an empty set. */
  lemma ExecKeepsNoEmptySet(m: Keyspace, c: Request, now: Time)
    requires NoEmptySet(m) && Admissible(c)
    ensures NoEmptySet(Exec(m, c, now).0)
  {
    match c {
      case At(k, op) => ActKeepsNoEmptySet(op, Live(m, k, now), now);
      case Del(keys) => DelOnlyRemoves(m, keys, now);
      case Exists(keys) => ExistsOnlyRemoves(m, keys, now);
      case Mget(keys) => MgetOnlyRemoves(m, keys, now);
      case Mset(terms) => MsetKeepsNoEmptySet(m, terms);
    }
  }

  /** So no run of admitted commands does. */
  lemma {:induction false} RunsStoreNoEmptySet(m: Keyspace, run: seq<Timed>, i: nat)
    requires i <= |run| && NoEmptySet(m)
    requires forall j :: 0 <= j < |run| ==> Admissible(run[j].request)
    ensures NoEmptySet(LazyState(m, run, i))
    decreases i
  {
    if i > 0 {
      RunsStoreNoEmptySet(m, run, i - 1);
      ExecKeepsNoEmptySet(LazyState(m, run, i - 1), run[i - 1].request, run[i - 1].now);
    }
  }

  /* ----- hashes ----- */

  lemma {:induction false} NewFieldsIsGrowth(m: map<Bytes, Bytes>, pairs: seq<(Bytes, Bytes)>)
    ensures |InsertPairs(m, pairs)| == |m| + NewFields(m, pairs)
    decreases |pairs|
  {
    if pairs != [] {
      var m1 := m[pairs[0].0 := pairs[0].1];
      NewFieldsIsGrowth(m1, pairs[1..]);
      assert m1.Keys == m.Keys + {pairs[0].0};
      assert |m1| == |m1.Keys| && |m| == |m.Keys|;
    }
  }

  lemma {:induction false} RemovedFieldsIsShrinkage(m: map<Bytes, Bytes>, fields: seq<Bytes>)
    ensures |RemoveFields(m, fields)| == |m| - RemovedFields(m, fields)
    decreases |fields|
  {
    if fields != [] {
      var m1 := m - {fields[0]};
      RemovedFieldsIsShrinkage(m1, fields[1..]);
      assert m1.Keys == m.Keys - {fields[0]};
      assert |m1| == |m1.Keys| && |m| == |m.Keys|;
    }
  }

  predicate DistinctFields(pairs: seq<(Bytes, Bytes)>) {
    forall i, j :: 0 <= i < j < |pairs| ==> pairs[i].0 != pairs[j].0
  }

  lemma {:induction false} NewFieldsAtMost(m: map<Bytes, Bytes>, pairs: seq<(Bytes, Bytes)>)
    ensures NewFields(m, pairs) <= |pairs|
    ensures NewFields(m, pairs) == |pairs| <==>
            DistinctFields(pairs) && forall i :: 0 <= i < |pairs| ==> pairs[i].0 !in m
    decreases |pairs|
  {
    if pairs != [] {
      var m1 := m[pairs[0].0 := pairs[0].1];
      NewFieldsAtMost(m1, pairs[1..]);
      if DistinctFields(pairs) && forall i :: 0 <= i < |pairs| ==> pairs[i].0 !in m {
        forall i | 0 <= i < |pairs[1..]| ensures pairs[1..][i].0 !in m1 {
          assert pairs[1..][i] == pairs[i + 1];
        }
      }
      if NewFields(m, pairs) == |pairs| {
        forall i | 0 < i < |pairs| ensures pairs[i].0 !in m && pairs[i].0 != pairs[0].0 {
          assert pairs[1..][i - 1] == pairs[i];
        }
        forall i, j | 0 <= i < j < |pairs| ensures pairs[i].0 != pairs[j].0 {
          assert i > 0 ==> pairs[1..][i - 1] == pairs[i];
          assert pairs[1..][j - 1] == pairs[j];
        }
      }
    }
  }

  /** The size of the hash in a live entry, zero if there is none. */
  function FieldCount(e: Option<Entry>): nat {
    match e
    case Some(Entry(Hash(fields), _)) => |fields|
    case _ => 0
  }

  lemma HashActCounts(op: HashOp, e: Option<Entry>)
    requires op.Hset? || op.Hdel?
    requires e.Some? ==> e.value.value.Hash?
    ensures var e', r := OnHashes(op, e).0, OnHashes(op, e).1;
            && r.Exactly? && r.response.Amount?
            && (op.Hdel? ==> FieldCount(e') == FieldCount(e) - r.response.amount)
            && (op.Hset? ==>
                  (FieldCount(e') == FieldCount(e) + r.response.amount <==> e.Some? || DistinctFields(op.pairs)))
            && (e'.Some? ==> e'.value.deadline == if e.Some? then e.value.deadline else None)
  {
    match e {
      case None =>
        if op.Hset? {
          NewFieldsIsGrowth(map[], op.pairs);
          NewFieldsAtMost(map[], op.pairs);
        }
      case Some(Entry(value, _)) =>
        if op.Hset? {
          NewFieldsIsGrowth(value.fields, op.pairs);
        } else {
          RemovedFieldsIsShrinkage(value.fields, op.fields);
        }
    }
  }

  /** HDEL answers the exact shrinkage. HSET answers the exact growth of an existing hash; on a missing
      key it answers the number of pairs, which is the growth exactly when no field is repeated. */
  lemma HashRepliesCount(m: Keyspace, k: Bytes, op: HashOp, now: Time)
    requires op.Hset? || op.Hdel?
    requires var e := Live(m, k, now); e.Some? ==> e.value.value.Hash?
    ensures var m', r := Exec(m, At(k, OnHash(op)), now).0, Exec(m, At(k, OnHash(op)), now).1;
            var before, after := FieldCount(Live(m, k, now)), FieldCount(Live(m', k, now));
            && r.Exactly? && r.response.Amount?
            && (op.Hdel? ==> after == before - r.response.amount)
            && (op.Hset? ==>
                  (after == before + r.response.amount <==> Live(m, k, now).Some? || DistinctFields(op.pairs)))
  {
    HashActCounts(op, Live(m, k, now));
  }

  /* ----- the panic ----- */

  /** The guard: a TTL on a key with a deadline the clock's i64 cannot hold. */
  predicate ReadsFarDeadline(m: Keyspace, c: Request) {
    && c.At? && c.op == OnDeadline(Ttl)
    && c.key in m && m[c.key].deadline.Some? && m[c.key].deadline.value > I64_MAX
  }

  predicate NoPanic(op: Op, e: Option<Entry>, now: Time) {
    Act(op, e, now).1 != Panicked
  }

  lemma OnlyTtlPanics(op: Op, e: Option<Entry>, now: Time)
    requires op != OnDeadline(Ttl)
    ensures NoPanic(op, e, now)
  {
    match op {
      case Put(_, _) =>
      case OnString(_) =>
      case OnCounter(_) =>
      case OnHash(_) =>
      case Push(_, _) =>
      case Pop(_, _) =>
      case OnItems(_) =>
      case OnSet(_) =>
      case OnDeadline(_) =>
    }
  }

  /** A command panics if and only if it is such a TTL, and then it changes nothing. */
  lemma PanicsOnFarDeadline(m: Keyspace, c: Request, now: Time)
    ensures Exec(m, c, now).1 == Panicked <==> ReadsFarDeadline(m, c)
    ensures ReadsFarDeadline(m, c) ==> Exec(m, c, now).0 == m
  {
    if c.At? && c.op != OnDeadline(Ttl) {
      OnlyTtlPanics(c.op, Live(m, c.key, now), now);
    } else if ReadsFarDeadline(m, c) {
      assert m[c.key := m[c.key]] == m;
    }
  }

  /** SET k v, EXPIRE k 10000000000000000000 is accepted; TTL k then ends the thread. */
  lemma FarDeadlinePanics(k: Bytes, v: Bytes, now: Time)
    ensures var m1 := Exec(map[], At(k, Put(Str(v), None)), now).0;
            var (m2, r2) := Exec(m1, At(k, OnDeadline(Expire(10_000_000_000_000_000_000))), now);
            r2 == Exactly(Amount(1)) && Exec(m2, At(k, OnDeadline(Ttl)), now).1 == Panicked
  {
  }

  /* ----- requests on which the exact conditions fail ----- */

  /** HSET k f v f w on a missing key answers 2 and stores one field. */
  lemma RepeatedFieldIsCountedTwice(k: Bytes, f: Bytes, v: Bytes, w: Bytes, now: Time)
    ensures var (m, r) := Exec(map[], At(k, OnHash(Hset([(f, v), (f, w)]))), now);
            r == Exactly(Amount(2)) && m == map[k := Entry(Hash(map[f := w]), None)]
  {
    var pairs := [(f, v), (f, w)];
    var m1: map<Bytes, Bytes> := map[f := v];
    assert pairs[1..] == [(f, w)] && [(f, w)][1..] == [];
    assert InsertPairs(m1, [(f, w)]) == m1[f := w] == map[f := w];
    assert InsertPairs(map[], pairs) == InsertPairs(m1, pairs[1..]);
  }

  function Stands(k: Bytes, total: int): Keyspace {
    map[k := Entry(Str(SignedDecimal(total)), None)]
  }

  /** INCRBY k -(2^63 - 1), then DECR k: the counter stands at -2^63, and the next INCR is refused. */
  lemma CounterGetsStuck(k: Bytes, low: int, now: Time)
    requires low == I64_MIN
    ensures var first := Exec(map[], At(k, OnCounter(IncrBy(low + 1))), now);
            first.0 == Stands(k, low + 1) && first.1 == Exactly(Number(low + 1))
    ensures var second := Exec(Stands(k, low + 1), At(k, OnCounter(Decr)), now);
            second.0 == Stands(k, low) && second.1 == Exactly(Number(low))
    ensures var third := Exec(Stands(k, low), At(k, OnCounter(Incr)), now);
            third.0 == Stands(k, low) && third.1 == WrongType(INCR)
  {
    CounterStands(k, low + 1, Decr, now);
    CounterStands(k, low, Incr, now);
  }

  /** A counter command on a stored total. */
  lemma CounterStands(k: Bytes, total: int, op: CounterOp, now: Time)
    requires I64_MIN <= total <= I64_MAX
    ensures var next, after := total + Delta(op), Exec(Stands(k, total), At(k, OnCounter(op)), now);
            if total != I64_MIN && I64_MIN <= next <= I64_MAX
            then after.0 == Stands(k, next) && after.1 == Exactly(Number(next))
            else after.0 == Stands(k, total) && after.1 == WrongType(CounterName(op))
  {
    CounterSum(total, Delta(op));
    CounterOnText(k, SignedDecimal(total), op, now);
  }

  /** A counter command on a stored text. */
  lemma CounterOnText(k: Bytes, text: Bytes, op: CounterOp, now: Time)
    ensures var m, sum := map[k := Entry(Str(text), None)], Sum(text, Delta(op));
            var m', r := Exec(m, At(k, OnCounter(op)), now).0, Exec(m, At(k, OnCounter(op)), now).1;
            if sum.None? then m' == m && r == WrongType(CounterName(op))
            else m' == map[k := Entry(Str(SignedDecimal(sum.value)), None)] && r == Exactly(Number(sum.value))
  {
    var e := Entry(Str(text), None);
    assert map[k := e][k := e] == map[k := e];
    if Sum(text, Delta(op)).Some? {
      var e' := Entry(Str(SignedDecimal(Sum(text, Delta(op)).value)), None);
      assert map[k := e][k := e'] == map[k := e'];
    }
  }
}
