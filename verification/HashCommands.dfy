/** What the hash commands do to a stored hash and answer. */
module HashCommands {
  import opened Bytes
  import opened Replies
  import opened Keyspace
  import opened Entries
  import opened KeyspaceLaws
  import opened BatchLaws
  import Souls

  /** HGET, HEXISTS, HLEN, HMGET and HGETALL answer from the fields stored, and change nothing. */
  lemma FieldsAreRead(m: Keyspace, k: Bytes, now: Time, h: map<Bytes, Bytes>, d: Option<nat>, f: Bytes)
    requires Shows(m, k, now, Hash(h), d)
    ensures Exec(m, At(k, OnHash(Hget(f))), now).0 == m == Exec(m, At(k, OnHash(Hexists(f))), now).0
    ensures Exec(m, At(k, OnHash(Hlen)), now).0 == m == Exec(m, At(k, OnHash(Hgetall)), now).0
    ensures Exec(m, At(k, OnHash(Hget(f))), now).1 == Exactly(BulkString(if f in h then Some(h[f]) else None))
    ensures Exec(m, At(k, OnHash(Hexists(f))), now).1 == Exactly(Amount(if f in h then 1 else 0))
    ensures Exec(m, At(k, OnHash(Hlen)), now).1 == Exactly(Length(|h|))
    ensures Exec(m, At(k, OnHash(Hgetall)), now).1 == SomeOrderOfFields(h)
  {
    StoreBack(m, k);
  }

  /** HMGET answers one row for each field it names, in order. */
  lemma FieldsAreReadTogether(m: Keyspace, k: Bytes, now: Time, h: map<Bytes, Bytes>, d: Option<nat>,
                              fields: seq<Bytes>) returns (rows: seq<Option<Bytes>>)
    requires Shows(m, k, now, Hash(h), d)
    ensures Exec(m, At(k, OnHash(Hmget(fields))), now).0 == m
    ensures Exec(m, At(k, OnHash(Hmget(fields))), now).1 == Exactly(BulkStringArray(Some(rows)))
    ensures |rows| == |fields|
    ensures forall i :: 0 <= i < |rows| ==> rows[i] == if fields[i] in h then Some(h[fields[i]]) else None
  {
    StoreBack(m, k);
    rows := Lookups(h, fields);
  }

  /** The rows of HGETALL are the fields stored, each once and followed by its value. */
  lemma FieldsAreListed(r: Response, h: map<Bytes, Bytes>) returns (order: seq<Bytes>)
    requires Souls.Answers(r, SomeOrderOfFields(h))
    ensures r.BulkStringArray? && r.rows.Some? && |r.rows.value| == 2 * |order|
    ensures forall i, j :: 0 <= i < j < |order| ==> order[i] != order[j]
    ensures forall f :: f in order <==> f in h
    ensures forall i :: 0 <= i < |order| ==>
              r.rows.value[2 * i] == Some(order[i]) && r.rows.value[2 * i + 1] == Some(h[order[i]])
  {
    order :| Souls.FieldRows(r.rows.value, order, h);
    FlatRows(order, h);
  }

  lemma {:induction false} FlatRows(order: seq<Bytes>, h: map<Bytes, Bytes>)
    requires forall f :: f in order ==> f in h
    ensures |Souls.Flatten(order, h)| == 2 * |order|
    ensures forall i :: 0 <= i < |order| ==>
              && Souls.Flatten(order, h)[2 * i] == Some(order[i])
              && Souls.Flatten(order, h)[2 * i + 1] == Some(h[order[i]])
  {
    if order != [] {
      var n := |order| - 1;
      FlatRows(order[..n], h);
      var flat := Souls.Flatten(order[..n], h);
      assert |flat| == 2 * n;
      assert forall i :: 0 <= i < n ==> order[..n][i] == order[i];
    }
  }

  /** h' is h with the pairs put in one by one. */
  predicate Filled(h: map<Bytes, Bytes>, pairs: seq<(Bytes, Bytes)>, h': map<Bytes, Bytes>) {
    h'.Keys == h.Keys + (set i | 0 <= i < |pairs| :: pairs[i].0) &&
    forall f :: f in h' ==>
      h'[f] == match LastPair(pairs, f) case Some(v) => v case None => if f in h then h[f] else []
  }

  /** The value of the last pair with a field, if there is one. */
  lemma {:induction false} LastPairIsLast(pairs: seq<(Bytes, Bytes)>, f: Bytes)
    ensures match LastPair(pairs, f)
            case Some(v) =>
              exists i :: 0 <= i < |pairs| && pairs[i] == (f, v) && forall j :: i < j < |pairs| ==> pairs[j].0 != f
            case None => forall j :: 0 <= j < |pairs| ==> pairs[j].0 != f
  {
    if pairs != [] {
      var n := |pairs| - 1;
      LastPairIsLast(pairs[..n], f);
      if pairs[n].0 == f {
        assert pairs[n] == (f, pairs[n].1);
      } else if LastPair(pairs[..n], f).Some? {
        var v := LastPair(pairs[..n], f).value;
        var i :| 0 <= i < n && pairs[..n][i] == (f, v) && forall j :: i < j < n ==> pairs[..n][j].0 != f;
        assert pairs[i] == (f, v) && forall j :: i < j < n ==> pairs[j].0 == pairs[..n][j].0;
      }
    }
  }

  lemma PairsFill(h: map<Bytes, Bytes>, pairs: seq<(Bytes, Bytes)>)
    ensures Filled(h, pairs, InsertPairs(h, pairs))
  {
    var h' := InsertPairs(h, pairs);
    forall f
      ensures f in h' <==> f in h || exists i :: 0 <= i < |pairs| && pairs[i].0 == f
      ensures f in h' ==>
                h'[f] == match LastPair(pairs, f) case Some(v) => v case None => if f in h then h[f] else []
    {
      HsetKeepsLast(h, pairs, f);
      LastPairIsLast(pairs, f);
    }
  }

  /** HSET puts its pairs in, keeps the other fields and the deadline, and answers by how much the hash has
      grown. */
  lemma HsetFills(m: Keyspace, k: Bytes, now: Time, h: map<Bytes, Bytes>, d: Option<nat>, pairs: seq<(Bytes, Bytes)>)
    returns (h': map<Bytes, Bytes>)
    requires Shows(m, k, now, Hash(h), d)
    ensures Filled(h, pairs, h') && |h'| >= |h|
    ensures Exec(m, At(k, OnHash(Hset(pairs))), now).0 == m[k := Entry(Hash(h'), d)]
    ensures Exec(m, At(k, OnHash(Hset(pairs))), now).1 == Exactly(Amount(|h'| - |h|))
  {
    h' := InsertPairs(h, pairs);
    PairsFill(h, pairs);
    NewFieldsIsGrowth(h, pairs);
    HsetStores(m, k, now, h, d, pairs);
  }

  lemma HsetStores(m: Keyspace, k: Bytes, now: Time, h: map<Bytes, Bytes>, d: Option<nat>, pairs: seq<(Bytes, Bytes)>)
    requires Shows(m, k, now, Hash(h), d)
    ensures Exec(m, At(k, OnHash(Hset(pairs))), now).0 == m[k := Entry(Hash(InsertPairs(h, pairs)), d)]
    ensures Exec(m, At(k, OnHash(Hset(pairs))), now).1 == Exactly(Amount(NewFields(h, pairs)))
  {
  }

  /** On a key with nothing to see HSET makes a new hash, without a deadline, and answers the number of its
      pairs. */
  lemma HsetCreates(m: Keyspace, k: Bytes, now: Time, pairs: seq<(Bytes, Bytes)>) returns (h': map<Bytes, Bytes>)
    requires Hidden(m, k, now)
    ensures Filled(map[], pairs, h')
    ensures Exec(m, At(k, OnHash(Hset(pairs))), now).0 == m[k := Entry(Hash(h'), None)]
    ensures Exec(m, At(k, OnHash(Hset(pairs))), now).1 == Exactly(Amount(|pairs|))
  {
    h' := InsertPairs(map[], pairs);
    PairsFill(map[], pairs);
  }

  /** HDEL takes the fields it names out, keeps the others and the deadline, and answers by how much the hash
      has shrunk. */
  lemma HdelTakesOut(m: Keyspace, k: Bytes, now: Time, h: map<Bytes, Bytes>, d: Option<nat>, fields: seq<Bytes>)
    requires Shows(m, k, now, Hash(h), d)
    ensures var h' := h - set f | f in fields;
            && |h'| <= |h|
            && Exec(m, At(k, OnHash(Hdel(fields))), now).0 == m[k := Entry(Hash(h'), d)]
            && Exec(m, At(k, OnHash(Hdel(fields))), now).1 == Exactly(Amount(|h| - |h'|))
  {
    HdelRemovesFields(h, fields);
    RemovedFieldsIsShrinkage(h, fields);
    HdelStores(m, k, now, h, d, fields);
    assert SetOf(fields) == set f | f in fields;
  }

  lemma HdelStores(m: Keyspace, k: Bytes, now: Time, h: map<Bytes, Bytes>, d: Option<nat>, fields: seq<Bytes>)
    requires Shows(m, k, now, Hash(h), d)
    ensures Exec(m, At(k, OnHash(Hdel(fields))), now).0 == m[k := Entry(Hash(RemoveFields(h, fields)), d)]
    ensures Exec(m, At(k, OnHash(Hdel(fields))), now).1 == Exactly(Amount(RemovedFields(h, fields)))
  {
  }

  /** What they answer when there is nothing to see under the key. */
  lemma NoHash(m: Keyspace, k: Bytes, now: Time, op: HashOp)
    requires Hidden(m, k, now) && !op.Hset?
    ensures Exec(m, At(k, OnHash(op)), now).0 == m - {k}
    ensures Exec(m, At(k, OnHash(op)), now).1 ==
            Exactly(match op
                    case Hget(_) => BulkString(None)
                    case Hmget(_) | Hgetall => BulkStringArray(None)
                    case Hlen => Length(0)
                    case _ => Amount(0))
  {
  }

  /** On a value of another type they answer the wrong type under their own name and change nothing. */
  lemma NotAHash(m: Keyspace, k: Bytes, now: Time, v: Value, d: Option<nat>, op: HashOp)
    requires Shows(m, k, now, v, d) && !v.Hash?
    ensures Exec(m, At(k, OnHash(op)), now).0 == m
    ensures Exec(m, At(k, OnHash(op)), now).1 ==
            Exactly(Error(IncorrectUsage(match op
                                         case Hset(_) => HSET
                                         case Hget(_) => HGET
                                         case Hmget(_) => HMGET
                                         case Hdel(_) => HDEL
                                         case Hexists(_) => HEXISTS
                                         case Hlen => HLEN
                                         case Hgetall => HGETALL)))
  {
    StoreBack(m, k);
  }
}
