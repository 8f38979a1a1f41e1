/** What the set commands do to a stored set and answer. */
module SetCommands {
  import opened Bytes
  import opened Replies
  import opened Keyspace
  import opened Entries
  import opened KeyspaceLaws
  import Souls

  /** SISMEMBER and SMEMBERS answer from the members stored, and change nothing. */
  lemma MembersAreRead(m: Keyspace, k: Bytes, now: Time, s: set<Bytes>, d: Option<nat>, x: Bytes)
    requires Shows(m, k, now, Members(s), d)
    ensures Exec(m, At(k, OnSet(Sismember(x))), now).0 == m == Exec(m, At(k, OnSet(Smembers)), now).0
    ensures Exec(m, At(k, OnSet(Sismember(x))), now).1 == Exactly(Length(if x in s then 1 else 0))
    ensures Exec(m, At(k, OnSet(Smembers)), now).1 == SomeOrderOfMembers(s)
  {
    StoreBack(m, k);
  }

  /** The rows of SMEMBERS are the members stored, each once. */
  lemma MembersAreListed(r: Response, s: set<Bytes>)
    requires Souls.Answers(r, SomeOrderOfMembers(s))
    ensures r.BulkStringArray? && r.rows.Some?
    ensures forall i, j :: 0 <= i < j < |r.rows.value| ==> r.rows.value[i] != r.rows.value[j]
    ensures forall x :: Some(x) in r.rows.value <==> x in s
    ensures None !in r.rows.value
  {
    var order :| Souls.Enumerates(order, s) && r.rows.value == Present(order);
    forall x ensures Some(x) in r.rows.value <==> x in s {
      if x in order {
        var i :| 0 <= i < |order| && order[i] == x;
        assert r.rows.value[i] == Some(x);
      }
    }
  }

  /** SADD adds the values it names, keeps the deadline and answers by how much the set has grown. */
  lemma SaddAdds(m: Keyspace, k: Bytes, now: Time, s: set<Bytes>, d: Option<nat>, values: seq<Bytes>)
    requires Shows(m, k, now, Members(s), d)
    ensures var s' := s + set x | x in values;
            && |s'| >= |s|
            && Exec(m, At(k, OnSet(Sadd(values))), now).0 == m[k := Entry(Members(s'), d)]
            && Exec(m, At(k, OnSet(Sadd(values))), now).1 == Exactly(Length(|s'| - |s|))
  {
    AddedIsGrowth(s, values);
    assert SetOf(values) == set x | x in values;
  }

  /** On a key with nothing to see it makes a new set, without a deadline. */
  lemma SaddCreates(m: Keyspace, k: Bytes, now: Time, values: seq<Bytes>)
    requires Hidden(m, k, now)
    ensures var s' := set x | x in values;
            && Exec(m, At(k, OnSet(Sadd(values))), now).0 == m[k := Entry(Members(s'), None)]
            && Exec(m, At(k, OnSet(Sadd(values))), now).1 == Exactly(Length(|s'|))
  {
    AddedIsGrowth({}, values);
    assert SetOf(values) == set x | x in values;
    assert {} + SetOf(values) == SetOf(values);
  }

  /** SREM takes out the values it names, keeps the deadline and answers by how much the set has shrunk; a set
      left empty goes with its key. */
  lemma SremTakesOut(m: Keyspace, k: Bytes, now: Time, s: set<Bytes>, d: Option<nat>, values: seq<Bytes>)
    requires Shows(m, k, now, Members(s), d)
    ensures var s' := s - set x | x in values;
            && |s'| <= |s|
            && Exec(m, At(k, OnSet(Srem(values))), now).0 ==
               (if s' == {} then m - {k} else m[k := Entry(Members(s'), d)])
            && Exec(m, At(k, OnSet(Srem(values))), now).1 == Exactly(Length(|s| - |s'|))
  {
    RemovedIsShrinkage(s, values);
    assert SetOf(values) == set x | x in values;
  }

  /** What they answer when there is nothing to see under the key. */
  lemma NoSet(m: Keyspace, k: Bytes, now: Time, op: SetOp)
    requires Hidden(m, k, now) && !op.Sadd?
    ensures Exec(m, At(k, OnSet(op)), now).0 == m - {k}
    ensures Exec(m, At(k, OnSet(op)), now).1 == Exactly(if op.Smembers? then BulkStringArray(None) else Length(0))
  {
  }

  /** On a value of another type they answer the wrong type under their own name and change nothing. */
  lemma NotASet(m: Keyspace, k: Bytes, now: Time, v: Value, d: Option<nat>, op: SetOp)
    requires Shows(m, k, now, v, d) && !v.Members?
    ensures Exec(m, At(k, OnSet(op)), now).0 == m
    ensures Exec(m, At(k, OnSet(op)), now).1 ==
            Exactly(Error(IncorrectUsage(match op
                                         case Sadd(_) => SADD
                                         case Srem(_) => SREM
                                         case Sismember(_) => SISMEMBER
                                         case Smembers => SMEMBERS)))
  {
    StoreBack(m, k);
  }
}
