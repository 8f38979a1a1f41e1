/** src/temple/soul.rs in its own form: the keyspace updated in place, with the source's loops. Every
    method is proved to do what Keyspace.Exec says and to answer what it says. */
module Souls {
  import opened Bytes
  import opened Numbers
  import opened Replies
  import opened Keyspace
  import ListLaws

  /** order lists the members of s, each once. */
  ghost predicate Enumerates(order: seq<Bytes>, s: set<Bytes>) {
    (forall i, j :: 0 <= i < j < |order| ==> order[i] != order[j]) && forall x :: x in order <==> x in s
  }

  /** Each field followed by its value. */
  function Flatten(order: seq<Bytes>, m: map<Bytes, Bytes>): seq<Option<Bytes>>
    requires forall x :: x in order ==> x in m
  {
    if order == [] then []
    else
      var last := order[|order| - 1];
      Flatten(order[..|order| - 1], m) + [Some(last), Some(m[last])]
  }

  ghost predicate FieldRows(rows: seq<Option<Bytes>>, order: seq<Bytes>, m: map<Bytes, Bytes>) {
    Enumerates(order, m.Keys) && rows == Flatten(order, m)
  }

  /** A response gives the reply, in some order where the reply leaves it open. */
  ghost predicate Answers(r: Response, reply: Reply) {
    match reply
    case Exactly(response) => r == response
    case SomeOrderOfFields(m) =>
      r.BulkStringArray? && r.rows.Some? && exists order: seq<Bytes> :: FieldRows(r.rows.value, order, m)
    case Panicked => false
    case SomeOrderOfMembers(s) =>
      r.BulkStringArray? && r.rows.Some? &&
      exists order: seq<Bytes> :: Enumerates(order, s) && r.rows.value == Present(order)
  }

  /** From m, at this time, the command c leads to m' and is answered by r. */
  ghost predicate Did(m: Keyspace, c: Request, now: Time, m': Keyspace, r: Response) {
    m' == Exec(m, c, now).0 && Answers(r, Exec(m, c, now).1)
  }

  /** The same of a command that may panic, None being the panic. */
  ghost predicate DidOrPanicked(m: Keyspace, c: Request, now: Time, m': Keyspace, r: Option<Response>) {
    && m' == Exec(m, c, now).0
    && match r case None => Exec(m, c, now).1 == Panicked case Some(response) => Answers(response, Exec(m, c, now).1)
  }

  function Wrong(name: CommandName): Response {
    Error(IncorrectUsage(name))
  }

  class Soul {
    var entries: Keyspace

    constructor ()
      ensures entries == map[]
    {
      entries := map[];
    }

    /** get_valid_value and get_mut_valid_value: a look that removes what has expired. */
    method GetValidValue(key: Bytes, now: Time) returns (v: Option<Value>)
      modifies this
      ensures entries == Touch(old(entries), key, now) == Store(old(entries), key, Live(old(entries), key, now))
      ensures v == match Live(old(entries), key, now) case None => None case Some(e) => Some(e.value)
    {
      StoreWhatIsLive(entries, key, now);
      var isExpired := key in entries && entries[key].deadline.Some? && entries[key].deadline.value < now;
      if isExpired {
        entries := entries - {key};
        return None;
      }
      return if key in entries then Some(entries[key].value) else None;
    }

    /** A write through the reference get_mut_valid_value gives out: the deadline stays. */
    method Write(key: Bytes, v: Value)
      requires key in entries
      modifies this
      ensures entries == old(entries)[key := Entry(v, old(entries)[key].deadline)]
    {
      entries := entries[key := entries[key].(value := v)];
    }

    /** A new entry without a deadline. */
    method Insert(key: Bytes, v: Value)
      modifies this
      ensures entries == old(entries)[key := Entry(v, None)]
    {
      entries := entries[key := Entry(v, None)];
    }

    /** remove_valid_value: removes the key, and tells whether it was live. */
    method RemoveValidValue(key: Bytes, now: Time) returns (v: Option<Value>)
      modifies this
      ensures entries == old(entries) - {key}
      ensures v == match Live(old(entries), key, now) case None => None case Some(e) => Some(e.value)
    {
      if key !in entries {
        assert entries - {key} == entries;
        return None;
      }
      var e := entries[key];
      entries := entries - {key};
      return if e.deadline.Some? && e.deadline.value < now then None else Some(e.value);
    }

    /* ----- strings ----- */

    method Get(key: Bytes, now: Time) returns (r: Response)
      modifies this
      ensures Did(old(entries), At(key, OnString(StringOp.Get)), now, entries, r)
    {
      var v := GetValidValue(key, now);
      match v {
        case Some(Str(s)) => r := BulkString(Some(s));
        case Some(_) => r := Wrong(GET);
        case None => r := BulkString(None);
      }
    }

    method Set(key: Bytes, v: Value, deadline: Option<nat>) returns (r: Response)
      modifies this
      ensures forall now :: Did(old(entries), At(key, Put(v, deadline)), now, entries, r)
    {
      entries := entries[key := Entry(v, deadline)];
      return InfoOk;
    }

    method Append(key: Bytes, suffix: Bytes, now: Time) returns (r: Response)
      modifies this
      ensures Did(old(entries), At(key, OnString(StringOp.Append(suffix))), now, entries, r)
    {
      var v := GetValidValue(key, now);
      match v {
        case Some(Str(s)) =>
          Write(key, Str(s + suffix));
          r := Length(|s + suffix|);
        case Some(_) => r := Wrong(APPEND);
        case None =>
          Insert(key, Str(suffix));
          r := Length(|suffix|);
      }
    }

    method Strlen(key: Bytes, now: Time) returns (r: Response)
      modifies this
      ensures Did(old(entries), At(key, OnString(StringOp.Strlen)), now, entries, r)
    {
      var v := GetValidValue(key, now);
      match v {
        case Some(Str(s)) => r := Length(|s|);
        case Some(_) => r := Wrong(STRLEN);
        case None => r := Length(0);
      }
    }

    /** incr, decr and incrby, which differ in the delta and in the name an error carries. */
    method Add(key: Bytes, op: CounterOp, now: Time) returns (r: Response)
      modifies this
      ensures Did(old(entries), At(key, OnCounter(op)), now, entries, r)
    {
      var delta: int := Delta(op);
      var v := GetValidValue(key, now);
      match v {
        case Some(Str(s)) =>
          var number := BytesToSigned(s, I64_MAX);
          if number.None? {
            return Wrong(CounterName(op));
          }
          var sum := number.value + delta;
          if !(I64_MIN <= sum <= I64_MAX) {
            return Wrong(CounterName(op));
          }
          Write(key, Str(SignedDecimal(sum)));
          r := Number(sum);
        case Some(_) => r := Wrong(CounterName(op));
        case None =>
          Insert(key, Str(SignedDecimal(delta)));
          r := Number(delta);
      }
    }

    /* ----- hashes ----- */

    method Hset(key: Bytes, pairs: seq<(Bytes, Bytes)>, now: Time) returns (r: Response)
      modifies this
      ensures Did(old(entries), At(key, OnHash(HashOp.Hset(pairs))), now, entries, r)
    {
      var v := GetValidValue(key, now);
      match v {
        case Some(Hash(m)) =>
          var fields, added := m, 0;
          for i := 0 to |pairs|
            invariant InsertPairs(fields, pairs[i..]) == InsertPairs(m, pairs)
            invariant added + NewFields(fields, pairs[i..]) == NewFields(m, pairs)
          {
            if pairs[i].0 !in fields {
              added := added + 1;
            }
            fields := fields[pairs[i].0 := pairs[i].1];
            assert pairs[i..][1..] == pairs[i + 1..];
          }
          Write(key, Hash(fields));
          r := Amount(added);
        case Some(_) => r := Wrong(HSET);
        case None =>
          var fields, added := map[], 0;
          for i := 0 to |pairs|
            invariant InsertPairs(fields, pairs[i..]) == InsertPairs(map[], pairs)
            invariant added == i
          {
            fields := fields[pairs[i].0 := pairs[i].1];
            added := added + 1;
            assert pairs[i..][1..] == pairs[i + 1..];
          }
          Insert(key, Hash(fields));
          r := Amount(added);
      }
    }

    method Hget(key: Bytes, field: Bytes, now: Time) returns (r: Response)
      modifies this
      ensures Did(old(entries), At(key, OnHash(HashOp.Hget(field))), now, entries, r)
    {
      var v := GetValidValue(key, now);
      match v {
        case Some(Hash(m)) => r := BulkString(Lookup(m, field));
        case Some(_) => r := Wrong(HGET);
        case None => r := BulkString(None);
      }
    }

    method Hmget(key: Bytes, fields: seq<Bytes>, now: Time) returns (r: Response)
      modifies this
      ensures Did(old(entries), At(key, OnHash(HashOp.Hmget(fields))), now, entries, r)
    {
      var v := GetValidValue(key, now);
      match v {
        case Some(Hash(m)) =>
          var values: seq<Option<Bytes>> := [];
          for i := 0 to |fields|
            invariant values == Lookups(m, fields)[..i]
          {
            values := values + [Lookup(m, fields[i])];
          }
          assert values == Lookups(m, fields);
          r := BulkStringArray(Some(values));
        case Some(_) => r := Wrong(HMGET);
        case None => r := BulkStringArray(None);
      }
    }

    method Hdel(key: Bytes, fields: seq<Bytes>, now: Time) returns (r: Response)
      modifies this
      ensures Did(old(entries), At(key, OnHash(HashOp.Hdel(fields))), now, entries, r)
    {
      var v := GetValidValue(key, now);
      match v {
        case Some(Hash(m)) =>
          var left, removed := m, 0;
          for i := 0 to |fields|
            invariant RemoveFields(left, fields[i..]) == RemoveFields(m, fields)
            invariant removed + RemovedFields(left, fields[i..]) == RemovedFields(m, fields)
          {
            if fields[i] in left {
              removed := removed + 1;
            }
            left := left - {fields[i]};
            assert fields[i..][1..] == fields[i + 1..];
          }
          Write(key, Hash(left));
          r := Amount(removed);
        case Some(_) => r := Wrong(HDEL);
        case None => r := Amount(0);
      }
    }

    method Hexists(key: Bytes, field: Bytes, now: Time) returns (r: Response)
      modifies this
      ensures Did(old(entries), At(key, OnHash(HashOp.Hexists(field))), now, entries, r)
    {
      var v := GetValidValue(key, now);
      match v {
        case Some(Hash(m)) => r := Amount(if field in m then 1 else 0);
        case Some(_) => r := Wrong(HEXISTS);
        case None => r := Amount(0);
      }
    }

    method Hlen(key: Bytes, now: Time) returns (r: Response)
      modifies this
      ensures Did(old(entries), At(key, OnHash(HashOp.Hlen)), now, entries, r)
    {
      var v := GetValidValue(key, now);
      match v {
        case Some(Hash(m)) => r := Length(|m|);
        case Some(_) => r := Wrong(HLEN);
        case None => r := Length(0);
      }
    }

    method Hgetall(key: Bytes, now: Time) returns (r: Response)
      modifies this
      ensures Did(old(entries), At(key, OnHash(HashOp.Hgetall)), now, entries, r)
    {
      var v := GetValidValue(key, now);
      match v {
        case Some(Hash(m)) =>
          var rows := FieldsInSomeOrder(m);
          r := BulkStringArray(Some(rows));
        case Some(_) => r := Wrong(HGETALL);
        case None => r := BulkStringArray(None);
      }
    }

    /* ----- lists ----- */

    method Push(key: Bytes, side: Side, elements: seq<Bytes>, now: Time) returns (r: Response)
      modifies this
      ensures Did(old(entries), At(key, Op.Push(side, elements)), now, entries, r)
    {
      var v := GetValidValue(key, now);
      match v {
        case Some(List(s)) =>
          var list := PushLoop(s, side, elements);
          Write(key, List(list));
          r := Length(|list|);
        case Some(_) => r := Wrong(if side.Left? then LPUSH else RPUSH);
        case None =>
          var list := if side.Left? then Reverse(elements) else elements;
          assert list == Pushed(side, [], elements);
          Insert(key, List(list));
          r := Length(|elements|);
      }
    }

    /** lpop and rpop, through the map's entry: the type comes first, then the deadline. */
    method Pop(key: Bytes, side: Side, now: Time) returns (r: Response)
      modifies this
      ensures Did(old(entries), At(key, Op.Pop(side, None)), now, entries, r)
    {
      if key !in entries {
        assert entries - {key} == entries;
        return BulkString(None);
      }
      var e := entries[key];
      if !e.value.List? {
        return Wrong(PopName(side));
      }
      if e.deadline.Some? && e.deadline.value < now {
        entries := entries - {key};
        return BulkString(None);
      }
      var list, element := e.value.items, None;
      if |list| > 0 {
        match side {
          case Left =>
            element := Some(list[0]);
            list := list[1..];
          case Right =>
            element := Some(list[|list| - 1]);
            list := list[..|list| - 1];
        }
      }
      if |list| == 0 {
        entries := entries - {key};
      } else {
        Write(key, List(list));
      }
      return BulkString(element);
    }

    /** lpop_m and rpop_m. */
    method PopMany(key: Bytes, side: Side, count: nat, now: Time) returns (r: Response)
      modifies this
      ensures Did(old(entries), At(key, Op.Pop(side, Some(count))), now, entries, r)
    {
      if key !in entries {
        assert entries - {key} == entries;
        return BulkStringArray(None);
      }
      var e := entries[key];
      if !e.value.List? {
        return Wrong(PopName(side));
      }
      if e.deadline.Some? && e.deadline.value < now {
        entries := entries - {key};
        return BulkStringArray(None);
      }
      var popped, list := PopLoop(e.value.items, side, count);
      if |list| == 0 {
        entries := entries - {key};
      } else {
        Write(key, List(list));
      }
      return BulkStringArray(Some(popped));
    }

    method Llen(key: Bytes, now: Time) returns (r: Response)
      modifies this
      ensures Did(old(entries), At(key, OnItems(ItemOp.Llen)), now, entries, r)
    {
      var v := GetValidValue(key, now);
      match v {
        case Some(List(s)) => r := Length(|s|);
        case Some(_) => r := Wrong(LLEN);
        case None => r := Length(0);
      }
    }

    method Lrange(key: Bytes, start: i32, end: i32, now: Time) returns (r: Response)
      modifies this
      ensures Did(old(entries), At(key, OnItems(ItemOp.Lrange(start, end))), now, entries, r)
    {
      var v := GetValidValue(key, now);
      match v {
        case Some(List(s)) =>
          var items := RangeOf(s, start, end);
          r := BulkStringArray(Some(Present(items)));
        case Some(_) => r := Wrong(LRANGE);
        case None => r := BulkStringArray(Some([]));
      }
    }

    method Lindex(key: Bytes, index: i32, now: Time) returns (r: Response)
      modifies this
      ensures Did(old(entries), At(key, OnItems(ItemOp.Lindex(index))), now, entries, r)
    {
      var v := GetValidValue(key, now);
      match v {
        case Some(List(s)) =>
          var len := Wrap32(|s|);
          var i: int := index;
          if i < 0 {
            i := Wrap32(i + len);
          }
          assert Position(|s|, index) == if i < 0 || i >= len then None else Some(i);
          if i < 0 || i >= len {
            return BulkString(None);
          }
          r := BulkString(Some(s[i]));
        case Some(_) => r := Wrong(LINDEX);
        case None => r := BulkString(None);
      }
    }

    method Lset(key: Bytes, index: i32, element: Bytes, now: Time) returns (r: Response)
      modifies this
      ensures Did(old(entries), At(key, OnItems(ItemOp.Lset(index, element))), now, entries, r)
    {
      var v := GetValidValue(key, now);
      match v {
        case Some(List(s)) =>
          var len := Wrap32(|s|);
          var i: int := index;
          if i < 0 {
            i := Wrap32(i + len);
          }
          assert Position(|s|, index) == if i < 0 || i >= len then None else Some(i);
          if i < 0 || i >= len {
            return Wrong(LSET);
          }
          Write(key, List(s[i := element]));
          r := InfoOk;
        case Some(_) => r := Wrong(LSET);
        case None => r := Wrong(LSET);
      }
    }

    method Lrem(key: Bytes, count: i32, element: Bytes, now: Time) returns (r: Response)
      modifies this
      ensures Did(old(entries), At(key, OnItems(ItemOp.Lrem(count, element))), now, entries, r)
    {
      var v := GetValidValue(key, now);
      match v {
        case Some(List(s)) =>
          var list;
          if count < 0 {
            list := RemoveBackward(s, count, element);
          } else if count > 0 {
            list := RemoveForward(s, count, element);
          } else {
            list := Without(s, element);
          }
          Write(key, List(list));
          r := Length(|s| - |list|);
        case Some(_) => r := Wrong(LREM);
        case None => r := Length(0);
      }
    }

    /* ----- sets ----- */

    method Sadd(key: Bytes, values: seq<Bytes>, now: Time) returns (r: Response)
      modifies this
      ensures Did(old(entries), At(key, OnSet(SetOp.Sadd(values))), now, entries, r)
    {
      var v := GetValidValue(key, now);
      match v {
        case Some(Members(s)) =>
          var members, count := AddLoop(s, values);
          Write(key, Members(members));
          r := Length(count);
        case Some(_) => r := Wrong(SADD);
        case None =>
          var members, count := AddLoop({}, values);
          assert members == SetOf(values);
          Insert(key, Members(members));
          r := Length(count);
      }
    }

    method Srem(key: Bytes, values: seq<Bytes>, now: Time) returns (r: Response)
      modifies this
      ensures Did(old(entries), At(key, OnSet(SetOp.Srem(values))), now, entries, r)
    {
      var v := GetValidValue(key, now);
      match v {
        case Some(Members(s)) =>
          var members, count := RemoveLoop(s, values);
          Write(key, Members(members));
          if members == {} {
            entries := entries - {key};
          }
          r := Length(count);
        case Some(_) => r := Wrong(SREM);
        case None => r := Length(0);
      }
    }

    method Sismember(key: Bytes, value: Bytes, now: Time) returns (r: Response)
      modifies this
      ensures Did(old(entries), At(key, OnSet(SetOp.Sismember(value))), now, entries, r)
    {
      var v := GetValidValue(key, now);
      match v {
        case Some(Members(s)) => r := Length(if value in s then 1 else 0);
        case Some(_) => r := Wrong(SISMEMBER);
        case None => r := Length(0);
      }
    }

    method Smembers(key: Bytes, now: Time) returns (r: Response)
      modifies this
      ensures Did(old(entries), At(key, OnSet(SetOp.Smembers)), now, entries, r)
    {
      var v := GetValidValue(key, now);
      match v {
        case Some(Members(s)) =>
          var order := SomeOrder(s);
          r := BulkStringArray(Some(Present(order)));
        case Some(_) => r := Wrong(SMEMBERS);
        case None => r := BulkStringArray(None);
      }
    }

    /* ----- deadlines ----- */

    method Expire(key: Bytes, expiry: nat, now: Time) returns (r: Response)
      modifies this
      ensures Did(old(entries), At(key, OnDeadline(DeadlineOp.Expire(expiry))), now, entries, r)
    {
      if key !in entries {
        assert entries - {key} == entries;
        return Amount(0);
      }
      var e := entries[key];
      if e.deadline.Some? && e.deadline.value < now {
        entries := entries - {key};
        return Amount(0);
      }
      entries := entries[key := e.(deadline := Some(expiry))];
      return Amount(1);
    }

    /** The deadline becomes a time of the clock before anything else is looked at. */
    method Ttl(key: Bytes, now: Time) returns (r: Option<Response>)
      modifies this
      ensures DidOrPanicked(old(entries), At(key, OnDeadline(DeadlineOp.Ttl)), now, entries, r)
    {
      StoreWhatIsLive(entries, key, now);
      if key !in entries {
        return Some(Number(-2));
      }
      var e := entries[key];
      if e.deadline.None? {
        return Some(Number(-1));
      }
      if e.deadline.value > I64_MAX {
        return None;
      }
      if e.deadline.value < now {
        entries := entries - {key};
        return Some(Number(-2));
      }
      return Some(Number(e.deadline.value - now));
    }

    /* ----- several keys ----- */

    method Del(keys: seq<Bytes>, now: Time) returns (r: Response)
      modifies this
      ensures Did(old(entries), Request.Del(keys), now, entries, r)
    {
      var deleted := 0;
      for i := 0 to |keys|
        invariant DelAll(entries, keys[i..], now).0 == DelAll(old(entries), keys, now).0
        invariant deleted + DelAll(entries, keys[i..], now).1 == DelAll(old(entries), keys, now).1
      {
        assert keys[i..][1..] == keys[i + 1..];
        var v := RemoveValidValue(keys[i], now);
        if v.Some? {
          deleted := deleted + 1;
        }
      }
      return Amount(deleted);
    }

    method Exists(keys: seq<Bytes>, now: Time) returns (r: Response)
      modifies this
      ensures Did(old(entries), Request.Exists(keys), now, entries, r)
    {
      var found := 0;
      for i := 0 to |keys|
        invariant ExistsAll(entries, keys[i..], now).0 == ExistsAll(old(entries), keys, now).0
        invariant found + ExistsAll(entries, keys[i..], now).1 == ExistsAll(old(entries), keys, now).1
      {
        assert keys[i..][1..] == keys[i + 1..];
        var v := GetValidValue(keys[i], now);
        if v.Some? {
          found := found + 1;
        }
      }
      return Amount(found);
    }

    method MgetRow(key: Bytes, now: Time) returns (row: Option<Bytes>)
      modifies this
      ensures entries == Touch(old(entries), key, now) && row == StringUnder(Live(old(entries), key, now))
    {
      var v := GetValidValue(key, now);
      return match v case Some(Str(s)) => Some(s) case _ => None;
    }

    method Mget(keys: seq<Bytes>, now: Time) returns (r: Response)
      modifies this
      ensures Did(old(entries), Request.Mget(keys), now, entries, r)
    {
      var rows: seq<Option<Bytes>> := [];
      for i := 0 to |keys|
        invariant MgetAll(entries, keys[i..], now).0 == MgetAll(old(entries), keys, now).0
        invariant rows + MgetAll(entries, keys[i..], now).1 == MgetAll(old(entries), keys, now).1
      {
        assert keys[i..][1..] == keys[i + 1..];
        ghost var later := MgetAll(entries, keys[i..], now).1;
        var row := MgetRow(keys[i], now);
        assert rows + later == (rows + [row]) + later[1..];
        rows := rows + [row];
      }
      assert rows + [] == rows;
      return BulkStringArray(Some(rows));
    }

    method Mset(terms: seq<Bytes>) returns (r: Response)
      modifies this
      ensures forall now :: Did(old(entries), Request.Mset(terms), now, entries, r)
    {
      var i := 0;
      while i + 1 < |terms|
        invariant 0 <= i <= |terms|
        invariant MsetAll(entries, terms[i..]) == MsetAll(old(entries), terms)
      {
        assert terms[i..][2..] == terms[i + 2..];
        Insert(terms[i], Str(terms[i + 1]));
        i := i + 2;
      }
      return InfoOk;
    }

    /* ----- dispatch ----- */

    method ExecuteHash(key: Bytes, op: HashOp, now: Time) returns (r: Response)
      modifies this
      ensures Did(old(entries), At(key, OnHash(op)), now, entries, r)
    {
      match op {
        case Hset(pairs) => r := Hset(key, pairs, now);
        case Hget(field) => r := Hget(key, field, now);
        case Hmget(fields) => r := Hmget(key, fields, now);
        case Hdel(fields) => r := Hdel(key, fields, now);
        case Hexists(field) => r := Hexists(key, field, now);
        case Hlen => r := Hlen(key, now);
        case Hgetall => r := Hgetall(key, now);
      }
    }

    method ExecuteItems(key: Bytes, op: ItemOp, now: Time) returns (r: Response)
      modifies this
      ensures Did(old(entries), At(key, OnItems(op)), now, entries, r)
    {
      match op {
        case Llen => r := Llen(key, now);
        case Lrange(start, end) => r := Lrange(key, start, end, now);
        case Lindex(index) => r := Lindex(key, index, now);
        case Lset(index, element) => r := Lset(key, index, element, now);
        case Lrem(count, element) => r := Lrem(key, count, element, now);
      }
    }

    method ExecuteSet(key: Bytes, op: SetOp, now: Time) returns (r: Response)
      modifies this
      ensures Did(old(entries), At(key, OnSet(op)), now, entries, r)
    {
      match op {
        case Sadd(values) => r := Sadd(key, values, now);
        case Srem(values) => r := Srem(key, values, now);
        case Sismember(member) => r := Sismember(key, member, now);
        case Smembers => r := Smembers(key, now);
      }
    }

    method ExecuteAt(key: Bytes, op: Op, now: Time) returns (r: Response)
      requires op != OnDeadline(DeadlineOp.Ttl)
      modifies this
      ensures Did(old(entries), At(key, op), now, entries, r)
    {
      match op {
        case Put(value, deadline) => r := Set(key, value, deadline);
        case OnString(Get) => r := Get(key, now);
        case OnString(Append(suffix)) => r := Append(key, suffix, now);
        case OnString(Strlen) => r := Strlen(key, now);
        case OnCounter(o) => r := Add(key, o, now);
        case OnHash(o) => r := ExecuteHash(key, o, now);
        case Push(side, elements) => r := Push(key, side, elements, now);
        case Pop(side, None) => r := Pop(key, side, now);
        case Pop(side, Some(count)) => r := PopMany(key, side, count, now);
        case OnItems(o) => r := ExecuteItems(key, o, now);
        case OnSet(o) => r := ExecuteSet(key, o, now);
        case OnDeadline(Expire(expiry)) => r := Expire(key, expiry, now);
      }
    }

    method ExecuteMany(c: Request, now: Time) returns (r: Response)
      requires !c.At?
      modifies this
      ensures Did(old(entries), c, now, entries, r)
    {
      match c {
        case Del(keys) => r := Del(keys, now);
        case Exists(keys) => r := Exists(keys, now);
        case Mget(keys) => r := Mget(keys, now);
        case Mset(terms) => r := Mset(terms);
      }
    }

    /** Any database command. None is a panic. */
    method Execute(c: Request, now: Time) returns (r: Option<Response>)
      modifies this
      ensures DidOrPanicked(old(entries), c, now, entries, r)
    {
      var response;
      if !c.At? {
        response := ExecuteMany(c, now);
        r := Some(response);
      } else if c.op == OnDeadline(DeadlineOp.Ttl) {
        r := Ttl(c.key, now);
      } else {
        response := ExecuteAt(c.key, c.op, now);
        r := Some(response);
      }
    }
  }

  /* ----- loops over one value ----- */

  /** HashSet and HashMap iteration: some order, each element once. */
  method SomeOrder(s: set<Bytes>) returns (order: seq<Bytes>)
    ensures Enumerates(order, s)
  {
    order := [];
    var left := s;
    while left != {}
      invariant left <= s && Enumerates(order, s - left)
      decreases left
    {
      var x :| x in left;
      order := order + [x];
      left := left - {x};
    }
  }

  method FieldsInSomeOrder(m: map<Bytes, Bytes>) returns (rows: seq<Option<Bytes>>)
    ensures exists order: seq<Bytes> :: FieldRows(rows, order, m)
  {
    var order := SomeOrder(m.Keys);
    rows := [];
    for i := 0 to |order|
      invariant forall x :: x in order[..i] ==> x in m
      invariant rows == Flatten(order[..i], m)
    {
      assert order[..i + 1][..i] == order[..i];
      rows := rows + [Some(order[i]), Some(m[order[i]])];
    }
    assert order[..|order|] == order;
    assert FieldRows(rows, order, m);
  }

  /** The loop of lpush and rpush on an existing list. */
  method PushLoop(s: seq<Bytes>, side: Side, elements: seq<Bytes>) returns (list: seq<Bytes>)
    ensures list == Pushed(side, s, elements) && |list| == |s| + |elements|
  {
    list := s;
    for i := 0 to |elements|
      invariant list == Pushed(side, s, elements[..i]) && |list| == |s| + i
    {
      PushOneMore(side, s, elements, i);
      list := if side.Left? then [elements[i]] + list else list + [elements[i]];
    }
    assert elements[..|elements|] == elements;
  }

  lemma PushOneMore(side: Side, s: seq<Bytes>, xs: seq<Bytes>, i: nat)
    requires i < |xs|
    ensures Pushed(side, s, xs[..i + 1]) ==
            if side.Left? then [xs[i]] + Pushed(side, s, xs[..i]) else Pushed(side, s, xs[..i]) + [xs[i]]
  {
    assert xs[..i + 1] == xs[..i] + [xs[i]];
    ReverseSnoc(xs[..i], xs[i]);
  }

  lemma {:induction false} ReverseSnoc<T>(s: seq<T>, x: T)
    ensures Reverse(s + [x]) == [x] + Reverse(s)
  {
    if s != [] {
      assert (s + [x])[1..] == s[1..] + [x];
      ReverseSnoc(s[1..], x);
    }
  }

  /** The loop of lpop_m and rpop_m. */
  method PopLoop(s: seq<Bytes>, side: Side, count: nat) returns (popped: seq<Option<Bytes>>, list: seq<Bytes>)
    ensures list == Unpopped(side, s, Min(count, |s|))
    ensures popped == Present(Popped(side, s, Min(count, |s|)))
  {
    list, popped := s, [];
    ghost var out: seq<Bytes> := [];
    for i := 0 to count
      invariant list == Unpopped(side, s, Min(i, |s|))
      invariant out == Popped(side, s, Min(i, |s|)) && popped == Present(out)
    {
      if |list| == 0 {
        break;
      }
      PopStep(side, s, i, list, out);
      var x;
      match side {
        case Left => x, list := list[0], list[1..];
        case Right => x, list := list[|list| - 1], list[..|list| - 1];
      }
      out := out + [x];
      popped := popped + [Some(x)];
    }
  }

  lemma PopStep(side: Side, s: seq<Bytes>, i: nat, list: seq<Bytes>, out: seq<Bytes>)
    requires list != [] && list == Unpopped(side, s, Min(i, |s|)) && out == Popped(side, s, Min(i, |s|))
    ensures var x := if side.Left? then list[0] else list[|list| - 1];
            && (if side.Left? then list[1..] else list[..|list| - 1]) == Unpopped(side, s, Min(i + 1, |s|))
            && out + [x] == Popped(side, s, Min(i + 1, |s|))
            && Present(out + [x]) == Present(out) + [Some(x)]
  {
    PopOneMore(side, s, i);
  }

  lemma PopOneMore(side: Side, s: seq<Bytes>, n: nat)
    requires n < |s|
    ensures Popped(side, s, n + 1) == Popped(side, s, n) + [if side.Left? then s[n] else s[|s| - 1 - n]]
  {
  }

  /** The index arithmetic of lrange: wrapping, but on lengths that fit the ends of unbounded arithmetic. */
  method EndsOf(length: nat, start: i32, end: i32) returns (from: nat, to: int)
    ensures from == LrangeStart(length, start) && to == LrangeEnd(length, end)
    ensures length <= I32_MAX ==> from == ListLaws.Lo(length, start) && to == ListLaws.Hi(length, end)
  {
    if length <= I32_MAX {
      ListLaws.EndsFit(length, start, end);
    }
    var len: int := Wrap32(length);
    var first: int := start;
    to := end;
    if first < 0 {
      first := Wrap32(first + len);
    }
    if to < 0 {
      to := Wrap32(to + len);
    }
    if first < 0 {
      first := 0;
    }
    if to >= len {
      to := Wrap32(len - 1);
    }
    from := first;
  }

  /** items is nothing, or a stretch of s. */
  ghost predicate IsStretch(items: seq<Bytes>, s: seq<Bytes>) {
    items == [] || exists from: nat, to: nat :: from < to <= |s| && items == s[from..to]
  }

  /** The slice lrange takes. On a list of any length it lies within the list, whatever the arithmetic
      wraps to; on lengths that fit an i32 it is what lies between the ends of unbounded arithmetic. */
  method RangeOf(s: seq<Bytes>, start: i32, end: i32) returns (items: seq<Bytes>)
    ensures IsStretch(items, s)
    ensures |s| <= I32_MAX ==>
              var lo, hi := ListLaws.Lo(|s|, start), ListLaws.Hi(|s|, end);
              items == if lo <= hi then s[lo..hi + 1] else []
    ensures items == LrangeItems(s, start, end)
  {
    if |s| <= I32_MAX {
      ListLaws.LrangeIsBetween(s, start, end);
    }
    var len: int := Wrap32(|s|);
    var from, to := EndsOf(|s|, start, end);
    if Wrap32(to - from) >= 0 && from < len && to < len {
      return s[from..to + 1];
    }
    return [];
  }

  method AddLoop(s: set<Bytes>, values: seq<Bytes>) returns (members: set<Bytes>, count: nat)
    ensures members == s + SetOf(values) && count == Added(s, values)
  {
    members, count := s, 0;
    for i := 0 to |values|
      invariant members == s + SetOf(values[..i])
      invariant count + Added(members, values[i..]) == Added(s, values)
    {
      if values[i] !in members {
        count := count + 1;
      }
      members := members + {values[i]};
      assert values[i..][1..] == values[i + 1..];
      assert values[..i + 1] == values[..i] + [values[i]];
    }
    assert values[..|values|] == values;
  }

  method RemoveLoop(s: set<Bytes>, values: seq<Bytes>) returns (members: set<Bytes>, count: nat)
    ensures members == s - SetOf(values) && count == Removed(s, values)
  {
    members, count := s, 0;
    for i := 0 to |values|
      invariant members == s - SetOf(values[..i])
      invariant count + Removed(members, values[i..]) == Removed(s, values)
    {
      if values[i] in members {
        count := count + 1;
      }
      members := members - {values[i]};
      assert values[i..][1..] == values[i + 1..];
      assert values[..i + 1] == values[..i] + [values[i]];
    }
    assert values[..|values|] == values;
  }

  /** The scan's next step, on the prefix it has not reached yet. */
  /** What the backward scan is still to make of front, with back behind it. */
  ghost function Scanned(front: seq<Bytes>, count: int, x: Bytes, back: seq<Bytes>): seq<Bytes>
    requires count <= 0
  {
    RemoveLast(front, -count, x) + back
  }

  lemma ScanEnds(front: seq<Bytes>, count: int, x: Bytes, back: seq<Bytes>)
    requires count <= 0 && (front == [] || count == 0)
    ensures Scanned(front, count, x, back) == front + back
  {
  }

  /** One step of the scan. */
  lemma ScanStep(front: seq<Bytes>, count: int, x: Bytes, back: seq<Bytes>, list: seq<Bytes>, goal: seq<Bytes>)
    returns (front': seq<Bytes>, back': seq<Bytes>)
    requires front != [] && count < 0 && list == front + back && goal == Scanned(front, count, x, back)
    ensures |front'| == |front| - 1
    ensures var idx := |front'|;
            if list[idx] == x
            then list[..idx] + list[idx + 1..] == front' + back' && goal == Scanned(front', count + 1, x, back')
            else list == front' + back' && goal == Scanned(front', count, x, back')
  {
    var idx := |front| - 1;
    front', back' := front[..idx], if front[idx] == x then back else [front[idx]] + back;
    var rest := RemoveLast(front', -count, x);
    assert (rest + [front[idx]]) + back == rest + ([front[idx]] + back);
    assert list[..idx] == front' && list[idx + 1..] == back && list[idx] == front[idx];
    assert front' + ([front[idx]] + back) == front + back;
  }

  /** LREM's loop for a negative count, from the back. */
  method RemoveBackward(s: seq<Bytes>, n: i32, x: Bytes) returns (list: seq<Bytes>)
    requires n < 0
    ensures list == LremItems(s, n, x)
  {
    var idx := LastIndex(|s|);
    if idx < 0 {
      assert s[..0] == [] && s[0..] == s;
      return s;
    }
    list := ScanBackward(s, idx, n, x);
  }

  method ScanBackward(s: seq<Bytes>, last: nat, n: int, x: Bytes) returns (list: seq<Bytes>)
    requires last < |s| && n < 0
    ensures list == RemoveLast(s[..last + 1], -n, x) + s[last + 1..]
  {
    list := s;
    var count, idx: int := n, last;
    ghost var front, back := s[..last + 1], s[last + 1..];
    ghost var goal := Scanned(front, n, x, back);
    assert s == front + back;
    while idx >= 0 && count < 0
      invariant |front| == idx + 1 && count <= 0
      invariant list == front + back
      invariant goal == Scanned(front, count, x, back)
    {
      front, back := ScanStep(front, count, x, back, list, goal);
      if list[idx] == x {
        list := list[..idx] + list[idx + 1..];
        count := count + 1;
      }
      idx := idx - 1;
    }
    ScanEnds(front, count, x, back);
  }

  /** LREM's loop for a positive count, from the front. */
  method RemoveForward(s: seq<Bytes>, n: i32, x: Bytes) returns (list: seq<Bytes>)
    requires n > 0
    ensures list == LremItems(s, n, x)
  {
    list := s;
    var count: int := n;
    var idx := 0;
    while idx < |list| && count > 0
      invariant 0 <= idx <= |list| && count >= 0
      invariant list[..idx] + RemoveFirst(list[idx..], count, x) == LremItems(s, n, x)
      decreases |list| - idx
    {
      var rest := list[idx..];
      assert rest[1..] == list[idx + 1..];
      if list[idx] == x {
        assert (list[..idx] + list[idx + 1..])[idx..] == rest[1..];
        list := list[..idx] + list[idx + 1..];
        count := count - 1;
      } else {
        assert list[..idx + 1] == list[..idx] + [list[idx]];
        idx := idx + 1;
      }
    }
  }
}
