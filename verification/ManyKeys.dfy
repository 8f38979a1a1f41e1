/** What the commands over several keys do to the keyspace and answer. */
module ManyKeys {
  import opened Bytes
  import opened Replies
  import opened Keyspace
  import opened Entries
  import opened BatchLaws

  /** There is something to see under a key. */
  predicate Seen(m: Keyspace, k: Bytes, now: Time) {
    k in m && (m[k].deadline.Some? ==> now <= m[k].deadline.value)
  }

  lemma SeenIsLive(m: Keyspace, k: Bytes, now: Time)
    ensures Live(m, k, now) == if Seen(m, k, now) then Some(m[k]) else None
    ensures Seen(m, k, now) <==> !Hidden(m, k, now)
  {
  }

  /** DEL removes the keys it names and answers how many of them there were to see. */
  lemma DelRemoves(m: Keyspace, keys: seq<Bytes>, now: Time)
    ensures Exec(m, Del(keys), now).0 == m - set k | k in keys
    ensures Exec(m, Del(keys), now).1 == Exactly(Amount(|set k | k in keys && Seen(m, k, now)|))
  {
    DelCountsLiveKeys(m, keys, now);
    assert SetOf(keys) == set k | k in keys;
    assert LiveAmong(m, keys, now) == set k | k in keys && Seen(m, k, now);
  }

  /** The keys among those named under which everything is past its deadline. */
  function Expired(m: Keyspace, keys: seq<Bytes>, now: Time): set<Bytes> {
    set k | k in keys && k in m && !Seen(m, k, now)
  }

  /** EXISTS answers how often it names a key there is something to see under. */
  function Mentions(m: Keyspace, keys: seq<Bytes>, now: Time): nat {
    if keys == [] then 0 else (if Seen(m, keys[0], now) then 1 else 0) + Mentions(m, keys[1..], now)
  }

  lemma {:induction false} MentionsAreCounted(m: Keyspace, keys: seq<Bytes>, now: Time)
    ensures CountLive(m, keys, now) == Mentions(m, keys, now)
  {
    if keys != [] {
      CountLiveHead(m, keys, now);
      MentionsAreCounted(m, keys[1..], now);
    }
  }

  lemma ExistsCounts(m: Keyspace, keys: seq<Bytes>, now: Time)
    ensures Exec(m, Exists(keys), now).0 == m - Expired(m, keys, now)
    ensures Exec(m, Exists(keys), now).1 == Exactly(Amount(Mentions(m, keys, now)))
  {
    ExistsCountsMentions(m, keys, now);
    MentionsAreCounted(m, keys, now);
    assert DeadAmong(m, keys, now) == Expired(m, keys, now);
  }

  /** MGET answers, for each key in order, the text to see under it; nothing, if there is none or it is no
      text. */
  lemma MgetAnswers(m: Keyspace, keys: seq<Bytes>, now: Time) returns (rows: seq<Option<Bytes>>)
    ensures Exec(m, Mget(keys), now).0 == m - Expired(m, keys, now)
    ensures Exec(m, Mget(keys), now).1 == Exactly(BulkStringArray(Some(rows)))
    ensures |rows| == |keys|
    ensures forall i :: 0 <= i < |keys| ==>
              rows[i] == if Seen(m, keys[i], now) && m[keys[i]].value.Str? then Some(m[keys[i]].value.bytes) else None
  {
    rows := MgetAll(m, keys, now).1;
    MgetReadsEachKey(m, keys, now);
    assert DeadAmong(m, keys, now) == Expired(m, keys, now);
  }

  /** No pair from the i-th on has this key. */
  ghost predicate NoPair(terms: seq<Bytes>, i: nat, k: Bytes) {
    forall j :: i <= j && 2 * j + 1 < |terms| ==> terms[2 * j] != k
  }

  lemma NoPairShifts(terms: seq<Bytes>, i: nat, k: Bytes)
    requires |terms| >= 2 && NoPair(terms, i + 1, k)
    ensures NoPair(terms[2..], i, k)
  {
    forall j | i <= j && 2 * j + 1 < |terms[2..]| ensures terms[2..][2 * j] != k {
      assert terms[2..][2 * j] == terms[2 * (j + 1)];
    }
  }

  lemma {:induction false} UnnamedKeysStay(m: Keyspace, terms: seq<Bytes>, k: Bytes)
    requires NoPair(terms, 0, k)
    ensures var m' := MsetAll(m, terms); (k in m' <==> k in m) && (k in m ==> m'[k] == m[k])
    decreases |terms|
  {
    if |terms| >= 2 {
      assert terms[2 * 0] != k;
      assert NoPair(terms, 1, k);
      NoPairShifts(terms, 0, k);
      UnnamedKeysStay(m[terms[0] := Entry(Str(terms[1]), None)], terms[2..], k);
    }
  }

  lemma {:induction false} LastPairIsStored(m: Keyspace, terms: seq<Bytes>, i: nat)
    requires 2 * i + 1 < |terms| && NoPair(terms, i + 1, terms[2 * i])
    ensures var m', k := MsetAll(m, terms), terms[2 * i]; k in m' && m'[k] == Entry(Str(terms[2 * i + 1]), None)
    decreases i
  {
    var m1 := m[terms[0] := Entry(Str(terms[1]), None)];
    NoPairShifts(terms, i, terms[2 * i]);
    if i == 0 {
      UnnamedKeysStay(m1, terms[2..], terms[0]);
    } else {
      assert terms[2..][2 * (i - 1)] == terms[2 * i] && terms[2..][2 * (i - 1) + 1] == terms[2 * i + 1];
      LastPairIsStored(m1, terms[2..], i - 1);
    }
  }

  /** MSET takes its terms in pairs of a key and a text. It stores, without a deadline, the text of the last
      pair with a key, and leaves keys in no pair as they were. */
  lemma MsetStores(m: Keyspace, terms: seq<Bytes>, now: Time)
    ensures Exec(m, Mset(terms), now).1 == Exactly(InfoOk)
    ensures var m' := Exec(m, Mset(terms), now).0;
            && (forall i: nat :: 2 * i + 1 < |terms| && NoPair(terms, i + 1, terms[2 * i]) ==>
                  terms[2 * i] in m' && m'[terms[2 * i]] == Entry(Str(terms[2 * i + 1]), None))
            && (forall k :: NoPair(terms, 0, k) ==> (k in m' <==> k in m) && (k in m ==> m'[k] == m[k]))
  {
    var m' := Exec(m, Mset(terms), now).0;
    forall i: nat | 2 * i + 1 < |terms| && NoPair(terms, i + 1, terms[2 * i])
      ensures terms[2 * i] in m' && m'[terms[2 * i]] == Entry(Str(terms[2 * i + 1]), None)
    {
      LastPairIsStored(m, terms, i);
    }
    forall k | NoPair(terms, 0, k) ensures (k in m' <==> k in m) && (k in m ==> m'[k] == m[k]) {
      UnnamedKeysStay(m, terms, k);
    }
  }
}
