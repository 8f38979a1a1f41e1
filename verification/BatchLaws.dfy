/** What the commands over several keys or fields come to: each is told in terms of the keyspace it
    started from, although it works on its arguments one by one. */
module BatchLaws {
  import opened Bytes
  import opened Keyspace

  /** The live keys among those named. */
  function LiveAmong(m: Keyspace, keys: seq<Bytes>, now: Time): set<Bytes> {
    set k | k in SetOf(keys) && Live(m, k, now).Some?
  }

  /** DEL removes every key named, dead or live, and counts the live ones once each. */
  lemma {:induction false} DelCountsLiveKeys(m: Keyspace, keys: seq<Bytes>, now: Time)
    ensures DelAll(m, keys, now).0 == m - SetOf(keys)
    ensures DelAll(m, keys, now).1 == |LiveAmong(m, keys, now)|
    decreases |keys|
  {
    if keys == [] {
      assert m - SetOf(keys) == m;
      assert LiveAmong(m, keys, now) == {};
    } else {
      DelCountsLiveKeys(m - {keys[0]}, keys[1..], now);
      DelHead(m, keys, now);
    }
  }

  lemma DelHead(m: Keyspace, keys: seq<Bytes>, now: Time)
    requires keys != []
    ensures var m1, rest := m - {keys[0]}, LiveAmong(m - {keys[0]}, keys[1..], now);
            && m1 - SetOf(keys[1..]) == m - SetOf(keys)
            && keys[0] !in rest
            && LiveAmong(m, keys, now) == if Live(m, keys[0], now).Some? then rest + {keys[0]} else rest
  {
  }

  /** The dead keys among those named. */
  function DeadAmong(m: Keyspace, keys: seq<Bytes>, now: Time): set<Bytes> {
    set k | k in SetOf(keys) && k in m && Dead(m[k], now)
  }

  lemma TouchThenOthers(m: Keyspace, keys: seq<Bytes>, now: Time)
    requires keys != []
    ensures var m1 := Touch(m, keys[0], now);
            && m1 - DeadAmong(m1, keys[1..], now) == m - DeadAmong(m, keys, now)
            && forall k :: Live(m1, k, now) == Live(m, k, now)
  {
  }

  function CountLive(m: Keyspace, keys: seq<Bytes>, now: Time): nat {
    if keys == [] then 0
    else CountLive(m, keys[..|keys| - 1], now) + if Live(m, keys[|keys| - 1], now).Some? then 1 else 0
  }

  lemma {:induction false} CountLiveHead(m: Keyspace, keys: seq<Bytes>, now: Time)
    requires keys != []
    ensures CountLive(m, keys, now) ==
            CountLive(m, keys[1..], now) + if Live(m, keys[0], now).Some? then 1 else 0
  {
    if |keys| > 1 {
      CountLiveHead(m, keys[..|keys| - 1], now);
      assert keys[..|keys| - 1][1..] == keys[1..][..|keys| - 2];
    }
  }

  lemma {:induction false} CountLiveAgrees(m: Keyspace, m': Keyspace, keys: seq<Bytes>, now: Time)
    requires forall k :: Live(m, k, now) == Live(m', k, now)
    ensures CountLive(m, keys, now) == CountLive(m', keys, now)
  {
    if keys != [] {
      CountLiveAgrees(m, m', keys[..|keys| - 1], now);
    }
  }

  /** EXISTS counts every mention of a live key, and removes exactly the dead keys named. */
  lemma {:induction false} ExistsCountsMentions(m: Keyspace, keys: seq<Bytes>, now: Time)
    ensures ExistsAll(m, keys, now).0 == m - DeadAmong(m, keys, now)
    ensures ExistsAll(m, keys, now).1 == CountLive(m, keys, now)
    decreases |keys|
  {
    if keys == [] {
      assert m - DeadAmong(m, keys, now) == m;
    } else {
      var m1 := Touch(m, keys[0], now);
      TouchThenOthers(m, keys, now);
      ExistsCountsMentions(m1, keys[1..], now);
      CountLiveAgrees(m, m1, keys[1..], now);
      CountLiveHead(m, keys, now);
    }
  }

  /** MGET answers each key from the keyspace it started from, and removes exactly the dead keys named. */
  lemma {:induction false} MgetReadsEachKey(m: Keyspace, keys: seq<Bytes>, now: Time)
    ensures MgetAll(m, keys, now).0 == m - DeadAmong(m, keys, now)
    ensures |MgetAll(m, keys, now).1| == |keys|
    ensures forall i :: 0 <= i < |keys| ==> MgetAll(m, keys, now).1[i] == StringUnder(Live(m, keys[i], now))
    decreases |keys|
  {
    if keys == [] {
      assert m - DeadAmong(m, keys, now) == m;
    } else {
      var m1 := Touch(m, keys[0], now);
      TouchThenOthers(m, keys, now);
      MgetReadsEachKey(m1, keys[1..], now);
      forall i | 0 <= i < |keys|
        ensures MgetAll(m, keys, now).1[i] == StringUnder(Live(m, keys[i], now))
      {
        if i > 0 {
          assert MgetAll(m, keys, now).1[i] == MgetAll(m1, keys[1..], now).1[i - 1];
        }
      }
    }
  }

  /** The value the last pair with this key sets, if there is one. */
  function LastSet(terms: seq<Bytes>, k: Bytes): Option<Bytes>
    decreases |terms|
  {
    if |terms| < 2 then None
    else match LastSet(terms[2..], k)
      case Some(v) => Some(v)
      case None => if terms[0] == k then Some(terms[1]) else None
  }

  /** After MSET a key holds what its last pair says, without a deadline, and a key in no pair what it
      held. */
  lemma {:induction false} MsetKeepsLast(m: Keyspace, terms: seq<Bytes>, k: Bytes, now: Time)
    ensures Live(MsetAll(m, terms), k, now) ==
            match LastSet(terms, k)
            case Some(v) => Some(Entry(Str(v), None))
            case None => Live(m, k, now)
    decreases |terms|
  {
    if |terms| >= 2 {
      MsetKeepsLast(m[terms[0] := Entry(Str(terms[1]), None)], terms[2..], k, now);
    }
  }

  function LastPair(pairs: seq<(Bytes, Bytes)>, field: Bytes): Option<Bytes> {
    if pairs == [] then None
    else
      var n := |pairs| - 1;
      if pairs[n].0 == field then Some(pairs[n].1) else LastPair(pairs[..n], field)
  }

  lemma {:induction false} InsertPairsSnoc(m: map<Bytes, Bytes>, pairs: seq<(Bytes, Bytes)>)
    requires pairs != []
    ensures var n := |pairs| - 1;
            InsertPairs(m, pairs) == InsertPairs(m, pairs[..n])[pairs[n].0 := pairs[n].1]
    decreases |pairs|
  {
    if |pairs| == 1 {
      assert InsertPairs(m[pairs[0].0 := pairs[0].1], pairs[1..]) == m[pairs[0].0 := pairs[0].1];
    } else {
      InsertPairsSnoc(m[pairs[0].0 := pairs[0].1], pairs[1..]);
      assert pairs[1..][..|pairs| - 2] == pairs[..|pairs| - 1][1..];
    }
  }

  /** After HSET a field holds what its last pair says, and a field in no pair what it held. */
  lemma {:induction false} HsetKeepsLast(m: map<Bytes, Bytes>, pairs: seq<(Bytes, Bytes)>, field: Bytes)
    ensures Lookup(InsertPairs(m, pairs), field) ==
            match LastPair(pairs, field)
            case Some(v) => Some(v)
            case None => Lookup(m, field)
  {
    if pairs != [] {
      InsertPairsSnoc(m, pairs);
      HsetKeepsLast(m, pairs[..|pairs| - 1], field);
    }
  }

  /** After HDEL exactly the named fields are gone. */
  lemma {:induction false} HdelRemovesFields(m: map<Bytes, Bytes>, fields: seq<Bytes>)
    ensures RemoveFields(m, fields) == m - SetOf(fields)
    decreases |fields|
  {
    if fields == [] {
      assert m - SetOf(fields) == m;
    } else {
      HdelRemovesFields(m - {fields[0]}, fields[1..]);
      assert fields == [fields[0]] + fields[1..];
      assert (m - {fields[0]}) - SetOf(fields[1..]) == m - SetOf(fields);
    }
  }
}
