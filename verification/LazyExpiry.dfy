/** Lazy expiry refines eager expiry: a store that removes a dead key only when it is touched
    cannot be told apart from one that purges all dead keys before every command, except through
    the pops on a dead key that does not hold a list. */
module LazyExpiry {
  import opened Bytes
  import opened Keyspace

  function Purge(m: Keyspace, now: Time): Keyspace {
    map k | k in m && !Dead(m[k], now) :: m[k]
  }

  /** The lazy store with a purge in front of every command. */
  function EagerExec(m: Keyspace, c: Request, now: Time): (Keyspace, Reply) {
    Exec(Purge(m, now), c, now)
  }

  datatype Timed = Timed(request: Request, now: Time)

  /** The stores before command i of a run. */
  function LazyState(m: Keyspace, run: seq<Timed>, i: nat): Keyspace
    requires i <= |run|
  {
    if i == 0 then m
    else Exec(LazyState(m, run, i - 1), run[i - 1].request, run[i - 1].now).0
  }

  function EagerState(m: Keyspace, run: seq<Timed>, i: nat): Keyspace
    requires i <= |run|
  {
    if i == 0 then m
    else EagerExec(EagerState(m, run, i - 1), run[i - 1].request, run[i - 1].now).0
  }

  predicate InOrder(run: seq<Timed>) {
    forall i, j :: 0 <= i <= j < |run| ==> run[i].now <= run[j].now
  }

  /** The guard of the pops' wrong-type answer, on a key that is dead. */
  predicate PopsDead(m: Keyspace, c: Request, now: Time) {
    c.At? && PopsWrongType(m, c.key, c.op) && Dead(m[c.key], now)
  }

  /** Readers at this time see the same under every key. */
  ghost predicate SameView(m: Keyspace, m': Keyspace, now: Time) {
    forall k :: Live(m, k, now) == Live(m', k, now)
  }

  predicate AllLive(m: Keyspace, now: Time) {
    forall k :: k in m ==> !Dead(m[k], now)
  }

  lemma PurgeIsSameView(m: Keyspace, now: Time)
    ensures AllLive(Purge(m, now), now) && SameView(m, Purge(m, now), now)
  {
  }

  lemma SameViewLasts(m: Keyspace, m': Keyspace, now: Time, later: Time)
    requires SameView(m, m', now) && now <= later
    ensures SameView(m, m', later)
  {
    forall k ensures Live(m, k, later) == Live(m', k, later) {
      assert Live(m, k, now) == Live(m', k, now);
    }
  }

  lemma {:induction false} DelAgrees(m: Keyspace, m': Keyspace, keys: seq<Bytes>, now: Time)
    requires SameView(m, m', now)
    ensures SameView(DelAll(m, keys, now).0, DelAll(m', keys, now).0, now)
    ensures DelAll(m, keys, now).1 == DelAll(m', keys, now).1
    decreases |keys|
  {
    if keys != [] {
      forall k ensures Live(m - {keys[0]}, k, now) == Live(m' - {keys[0]}, k, now) {
        assert Live(m, k, now) == Live(m', k, now);
      }
      DelAgrees(m - {keys[0]}, m' - {keys[0]}, keys[1..], now);
    }
  }

  /** Touching a key changes no view. */
  lemma TouchIsSameView(m: Keyspace, k: Bytes, now: Time)
    ensures SameView(m, Touch(m, k, now), now)
  {
  }

  lemma {:induction false} ExistsAgrees(m: Keyspace, m': Keyspace, keys: seq<Bytes>, now: Time)
    requires SameView(m, m', now)
    ensures SameView(ExistsAll(m, keys, now).0, ExistsAll(m', keys, now).0, now)
    ensures ExistsAll(m, keys, now).1 == ExistsAll(m', keys, now).1
    decreases |keys|
  {
    if keys != [] {
      TouchIsSameView(m, keys[0], now);
      TouchIsSameView(m', keys[0], now);
      ExistsAgrees(Touch(m, keys[0], now), Touch(m', keys[0], now), keys[1..], now);
    }
  }

  lemma {:induction false} MgetAgrees(m: Keyspace, m': Keyspace, keys: seq<Bytes>, now: Time)
    requires SameView(m, m', now)
    ensures SameView(MgetAll(m, keys, now).0, MgetAll(m', keys, now).0, now)
    ensures MgetAll(m, keys, now).1 == MgetAll(m', keys, now).1
    decreases |keys|
  {
    if keys != [] {
      TouchIsSameView(m, keys[0], now);
      TouchIsSameView(m', keys[0], now);
      MgetAgrees(Touch(m, keys[0], now), Touch(m', keys[0], now), keys[1..], now);
    }
  }

  lemma {:induction false} MsetAgrees(m: Keyspace, m': Keyspace, terms: seq<Bytes>, now: Time)
    requires SameView(m, m', now)
    ensures SameView(MsetAll(m, terms), MsetAll(m', terms), now)
    decreases |terms|
  {
    if |terms| >= 2 {
      var e := Entry(Str(terms[1]), None);
      StoreAgrees(m, m', terms[0], Some(e), now);
      MsetAgrees(m[terms[0] := e], m'[terms[0] := e], terms[2..], now);
    }
  }

  lemma StoreAgrees(m: Keyspace, m': Keyspace, k: Bytes, e: Option<Entry>, now: Time)
    requires SameView(m, m', now)
    ensures SameView(Store(m, k, e), Store(m', k, e), now)
  {
    forall j ensures Live(Store(m, k, e), j, now) == Live(Store(m', k, e), j, now) {
      assert Live(m, j, now) == Live(m', j, now);
    }
  }

  /** One command on two stores with the same view, the second without dead keys: the views stay the
      same, and the answers are equal exactly when the command does not pop a dead non-list. */
  lemma StepAgrees(m: Keyspace, m': Keyspace, c: Request, now: Time)
    requires SameView(m, m', now) && AllLive(m', now)
    ensures SameView(Exec(m, c, now).0, Exec(m', c, now).0, now)
    ensures Exec(m, c, now).1 == Exec(m', c, now).1 <==> !PopsDead(m, c, now)
  {
    match c {
      case At(k, op) => AtAgrees(m, m', k, op, now);
      case Del(keys) => DelAgrees(m, m', keys, now);
      case Exists(keys) => ExistsAgrees(m, m', keys, now);
      case Mget(keys) => MgetAgrees(m, m', keys, now);
      case Mset(terms) => MsetAgrees(m, m', terms, now);
    }
  }

  lemma AtAgrees(m: Keyspace, m': Keyspace, k: Bytes, op: Op, now: Time)
    requires SameView(m, m', now) && AllLive(m', now)
    ensures var c := At(k, op);
            && SameView(Exec(m, c, now).0, Exec(m', c, now).0, now)
            && (Exec(m, c, now).1 == Exec(m', c, now).1 <==> !PopsDead(m, c, now))
  {
    assert Live(m, k, now) == Live(m', k, now);
    var (e, _) := Act(op, Live(m, k, now), now);
    StoreAgrees(m, m', k, e, now);
    if PopsDead(m, At(k, op), now) {
      DeadPop(m, m', k, op.side, op.count, now);
    }
  }

  /** The exception itself: the eager store answers that there is nothing to pop. */
  lemma DeadPop(m: Keyspace, m': Keyspace, k: Bytes, side: Side, count: Option<nat>, now: Time)
    requires SameView(m, m', now) && AllLive(m', now)
    requires PopsDead(m, At(k, Pop(side, count)), now)
    ensures var c := At(k, Pop(side, count));
            && SameView(Exec(m, c, now).0, Exec(m', c, now).0, now)
            && Exec(m, c, now).1 == WrongType(PopName(side))
            && Exec(m', c, now).1 == if count.None? then Text(None) else Table(None)
  {
    assert Live(m', k, now) == Live(m, k, now) == None;
    assert m' - {k} == m';
  }

  /** Whole runs. With times that never decrease, before and after every command both stores show
      readers the same, and the command gets the same answer from both exactly when it is not a pop
      of a dead key holding no list. */
  lemma {:induction false} LazyRefinesEager(m: Keyspace, run: seq<Timed>, i: nat)
    requires InOrder(run) && i < |run|
    ensures var lazy, eager, t := LazyState(m, run, i), EagerState(m, run, i), run[i];
            && SameView(lazy, eager, t.now)
            && (Exec(lazy, t.request, t.now).1 == EagerExec(eager, t.request, t.now).1
                <==> !PopsDead(lazy, t.request, t.now))
            && SameView(LazyState(m, run, i + 1), EagerState(m, run, i + 1), t.now)
    decreases i
  {
    var t := run[i];
    if i > 0 {
      LazyRefinesEager(m, run, i - 1);
      SameViewLasts(LazyState(m, run, i), EagerState(m, run, i), run[i - 1].now, t.now);
    }
    PurgedAgrees(LazyState(m, run, i), EagerState(m, run, i), t.request, t.now);
  }

  lemma PurgedAgrees(lazy: Keyspace, eager: Keyspace, c: Request, now: Time)
    requires SameView(lazy, eager, now)
    ensures SameView(Exec(lazy, c, now).0, EagerExec(eager, c, now).0, now)
    ensures Exec(lazy, c, now).1 == EagerExec(eager, c, now).1 <==> !PopsDead(lazy, c, now)
  {
    PurgeIsSameView(eager, now);
    assert SameView(lazy, Purge(eager, now), now) by {
      forall k ensures Live(lazy, k, now) == Live(Purge(eager, now), k, now) {
        assert Live(lazy, k, now) == Live(eager, k, now);
      }
    }
    StepAgrees(lazy, Purge(eager, now), c, now);
  }

  function Times(run: seq<Timed>): seq<Time> {
    seq(|run|, i requires 0 <= i < |run| => run[i].now)
  }

  predicate NeverDecrease(times: seq<Time>) {
    forall i, j :: 0 <= i <= j < |times| ==> times[i] <= times[j]
  }

  /** The two stores answer every command of a run alike, but for the pops of dead keys holding no list. */
  ghost predicate AnswersAgree(m: Keyspace, run: seq<Timed>) {
    forall i :: 0 <= i < |run| ==> AgreeAt(m, run, i)
  }

  predicate AgreeAt(m: Keyspace, run: seq<Timed>, i: nat)
    requires i < |run|
  {
    var lazy, eager, t := LazyState(m, run, i), EagerState(m, run, i), run[i];
    Exec(lazy, t.request, t.now).1 == EagerExec(eager, t.request, t.now).1 <==> !PopsDead(lazy, t.request, t.now)
  }

  /** A run that reads k at step b and another key at every other step. */
  function ReadsAt(times: seq<Time>, k: Bytes, other: Bytes, b: nat): seq<Timed> {
    seq(|times|, i requires 0 <= i < |times| => Timed(At(if i == b then k else other, OnString(Get)), times[i]))
  }

  /** Some purge before step i has ended e. */
  predicate Purged(times: seq<Time>, e: Entry, i: nat)
    requires i <= |times|
  {
    i > 0 && (Dead(e, times[i - 1]) || Purged(times, e, i - 1))
  }

  lemma {:induction false} PurgedSince(times: seq<Time>, e: Entry, a: nat, i: nat)
    requires a < i <= |times| && Dead(e, times[a])
    ensures Purged(times, e, i)
  {
    if a < i - 1 {
      PurgedSince(times, e, a, i - 1);
    }
  }

  /** Reading a key that is not there changes neither store, and a purge past its deadline ends k. */
  lemma {:induction false} OtherReads(times: seq<Time>, k: Bytes, other: Bytes, e: Entry, b: nat, i: nat)
    requires k != other && i <= b < |times|
    ensures LazyState(map[k := e], ReadsAt(times, k, other, b), i) == map[k := e]
    ensures EagerState(map[k := e], ReadsAt(times, k, other, b), i) ==
            if Purged(times, e, i) then map[] else map[k := e]
    decreases i
  {
    if i > 0 {
      OtherReads(times, k, other, e, b, i - 1);
      assert ReadsAt(times, k, other, b)[i - 1] == Timed(At(other, OnString(Get)), times[i - 1]);
      OtherRead(map[k := e], k, other, e, times[i - 1]);
      OtherRead(map[], k, other, e, times[i - 1]);
    }
  }

  lemma OtherRead(m: Keyspace, k: Bytes, other: Bytes, e: Entry, now: Time)
    requires k != other && (m == map[] || m == map[k := e])
    ensures Exec(m, At(other, OnString(Get)), now).0 == m
    ensures EagerExec(m, At(other, OnString(Get)), now).0 == if Dead(e, now) then map[] else m
  {
    assert m - {other} == m;
    assert Purge(m, now) == if Dead(e, now) then map[] else m;
    assert Purge(m, now) - {other} == Purge(m, now);
  }

  /** A purge cannot be undone: whenever a time decreases, some key that has been purged at the earlier
      step would still be alive at the later one, and the two stores answer differently. */
  lemma OrderMatters(times: seq<Time>, a: nat, b: nat, k: Bytes, other: Bytes, text: Bytes)
    requires a < b < |times| && times[b] < times[a] && k != other
    ensures var m, run := map[k := Entry(Str(text), Some(times[b]))], ReadsAt(times, k, other, b);
            && Exec(LazyState(m, run, b), run[b].request, run[b].now).1 == Text(Some(text))
            && EagerExec(EagerState(m, run, b), run[b].request, run[b].now).1 == Text(None)
  {
    var e := Entry(Str(text), Some(times[b]));
    PurgedSince(times, e, a, b);
    OtherReads(times, k, other, e, b, b);
  }

  /** Together: exactly the sequences of times that never decrease let the lazy store stand for the eager
      one in every run. */
  lemma {:induction false} RefinesIffInOrder(times: seq<Time>)
    ensures NeverDecrease(times) <==>
            forall m: Keyspace, run: seq<Timed> :: Times(run) == times ==> AnswersAgree(m, run)
  {
    if NeverDecrease(times) {
      forall m: Keyspace, run: seq<Timed> | Times(run) == times ensures AnswersAgree(m, run) {
        InOrderTimes(run);
        forall i | 0 <= i < |run| ensures AgreeAt(m, run, i) {
          LazyRefinesEager(m, run, i);
        }
      }
    } else {
      var a, b :| 0 <= a <= b < |times| && times[b] < times[a];
      var k, other: Bytes := [0], [];
      var m, run := map[k := Entry(Str([]), Some(times[b]))], ReadsAt(times, k, other, b);
      OrderMatters(times, a, b, k, other, []);
      assert Times(run) == times;
      assert !AgreeAt(m, run, b);
      assert !AnswersAgree(m, run);
    }
  }

  lemma InOrderTimes(run: seq<Timed>)
    requires NeverDecrease(Times(run))
    ensures InOrder(run)
  {
    forall i, j | 0 <= i <= j < |run| ensures run[i].now <= run[j].now {
      assert Times(run)[i] <= Times(run)[j];
    }
  }
}
