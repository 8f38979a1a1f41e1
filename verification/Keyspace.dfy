/** The keyspace of src/temple/soul.rs as a value: what every command does to it and answers.
    Souls.dfy proves the in-place code equal to Exec. */
module Keyspace {
  import opened Bytes
  import opened Numbers
  import opened Replies

  type i32 = x: int | -0x8000_0000 <= x <= 0x7fff_ffff
  type i64 = x: int | -0x8000_0000_0000_0000 <= x <= 0x7fff_ffff_ffff_ffff

  /** Whole seconds since the epoch. The system's clock keeps them in an i64. */
  type Time = t: int | 0 <= t <= 0x7fff_ffff_ffff_ffff

  /** Two's complement truncation, as in a cast to i32 or an i32 sum in a release build. */
  function Wrap32(x: int): i32 {
    (x + 0x8000_0000) % 0x1_0000_0000 - 0x8000_0000
  }

  datatype Value =
    | Str(bytes: Bytes)
    | List(items: seq<Bytes>)
    | Hash(fields: map<Bytes, Bytes>)
    | Members(members: set<Bytes>)

  datatype Entry = Entry(value: Value, deadline: Option<nat>)

  type Keyspace = map<Bytes, Entry>

  datatype StringOp = Get | Append(suffix: Bytes) | Strlen

  datatype CounterOp = Incr | Decr | IncrBy(delta: i64)

  datatype HashOp =
    | Hset(pairs: seq<(Bytes, Bytes)>)
    | Hget(field: Bytes)
    | Hmget(fields: seq<Bytes>)
    | Hdel(fields: seq<Bytes>)
    | Hexists(field: Bytes)
    | Hlen
    | Hgetall

  datatype Side = Left | Right

  datatype ItemOp =
    | Llen
    | Lrange(start: i32, end: i32)
    | Lindex(index: i32)
    | Lset(index: i32, element: Bytes)
    | Lrem(count: i32, element: Bytes)

  datatype SetOp =
    | Sadd(values: seq<Bytes>)
    | Srem(values: seq<Bytes>)
    | Sismember(member: Bytes)
    | Smembers

  datatype DeadlineOp = Expire(expiry: nat) | Ttl

  /** A command on one key. A pop without a count is LPOP key, with one LPOP key count. */
  datatype Op =
    | Put(value: Value, deadline: Option<nat>)
    | OnString(stringOp: StringOp)
    | OnCounter(counterOp: CounterOp)
    | OnHash(hashOp: HashOp)
    | Push(side: Side, elements: seq<Bytes>)
    | Pop(side: Side, count: Option<nat>)
    | OnItems(itemOp: ItemOp)
    | OnSet(setOp: SetOp)
    | OnDeadline(deadlineOp: DeadlineOp)

  datatype Request =
    | At(key: Bytes, op: Op)
    | Del(keys: seq<Bytes>)
    | Exists(keys: seq<Bytes>)
    | Mget(keys: seq<Bytes>)
    | Mset(terms: seq<Bytes>)

  /** HGETALL and SMEMBERS list their rows in the hash table's own order, which the source leaves
      open; their answers are the collection itself. Panicked is no answer: the thread that owns the
      keyspace has come to its end. */
  datatype Reply =
    | Exactly(response: Response)
    | SomeOrderOfFields(fields: map<Bytes, Bytes>)
    | SomeOrderOfMembers(members: set<Bytes>)
    | Panicked

  /* ----- values ----- */

  function Present(xs: seq<Bytes>): seq<Option<Bytes>> {
    seq(|xs|, i requires 0 <= i < |xs| => Some(xs[i]))
  }

  function Reverse<T>(s: seq<T>): seq<T> {
    if s == [] then [] else Reverse(s[1..]) + [s[0]]
  }

  /** The sum a counter would hold, if its text is a number and the sum fits. */
  function Sum(text: Bytes, delta: int): Option<int> {
    match ParseInt(text, I64_MAX)
    case None => None
    case Some(n) => if I64_MIN <= n + delta <= I64_MAX then Some(n + delta) else None
  }

  function Count(s: seq<Bytes>, x: Bytes): nat {
    if s == [] then 0 else (if s[0] == x then 1 else 0) + Count(s[1..], x)
  }

  /** s less every x. */
  function Without(s: seq<Bytes>, x: Bytes): (r: seq<Bytes>)
    ensures |r| + Count(s, x) == |s|
  {
    if s == [] then []
    else if s[0] == x then Without(s[1..], x)
    else [s[0]] + Without(s[1..], x)
  }

  /** s less its first n occurrences of x. */
  function RemoveFirst(s: seq<Bytes>, n: nat, x: Bytes): (r: seq<Bytes>)
    ensures |r| <= |s|
  {
    if s == [] || n == 0 then s
    else if s[0] == x then RemoveFirst(s[1..], n - 1, x)
    else [s[0]] + RemoveFirst(s[1..], n, x)
  }

  /** s less its last n occurrences of x. */
  function RemoveLast(s: seq<Bytes>, n: nat, x: Bytes): (r: seq<Bytes>)
    ensures |r| <= |s|
  {
    if s == [] || n == 0 then s
    else
      var k := |s| - 1;
      if s[k] == x then RemoveLast(s[..k], n - 1, x) else RemoveLast(s[..k], n, x) + [s[k]]
  }

  /** Where LREM's backward scan starts: the length less one as an i32, so past 2^31 - 1 elements it
      wraps. */
  function LastIndex(length: nat): (i: int)
    ensures i < length
    ensures length <= I32_MAX ==> i == length - 1
  {
    Wrap32(Wrap32(length) - 1)
  }

  /** How much of the list that scan covers. */
  function ScanLength(length: nat): (n: nat)
    ensures n <= length
    ensures length <= I32_MAX ==> n == length
  {
    if LastIndex(length) < 0 then 0 else LastIndex(length) + 1
  }

  function LremItems(s: seq<Bytes>, count: i32, x: Bytes): (r: seq<Bytes>)
    ensures |r| <= |s|
  {
    if count < 0 then
      var n := ScanLength(|s|);
      RemoveLast(s[..n], -(count as int), x) + s[n..]
    else if count > 0 then RemoveFirst(s, count, x)
    else Without(s, x)
  }

  /** The ends of LRANGE, in wrapping i32. */
  function LrangeStart(length: nat, start: i32): i32 {
    var i := if start < 0 then Wrap32(start + Wrap32(length)) else start;
    if i < 0 then 0 else i
  }

  function LrangeEnd(length: nat, end: i32): i32 {
    var len := Wrap32(length);
    var i := if end < 0 then Wrap32(end + len) else end;
    if i >= len then Wrap32(len - 1) else i
  }

  function LrangeItems(s: seq<Bytes>, start: i32, end: i32): seq<Bytes> {
    var len := Wrap32(|s|);
    var from, to := LrangeStart(|s|, start), LrangeEnd(|s|, end);
    if Wrap32(to - from) >= 0 && from < len && to < len then s[from..to + 1] else []
  }

  /** The position an index of LINDEX and LSET names, in wrapping i32. */
  function Position(length: nat, index: i32): (r: Option<nat>)
    ensures r.Some? ==> r.value < length
  {
    var len := Wrap32(length);
    var i := if index < 0 then Wrap32(index + len) else index;
    if i < 0 || i >= len then None else Some(i)
  }

  function InsertPairs(m: map<Bytes, Bytes>, pairs: seq<(Bytes, Bytes)>): map<Bytes, Bytes>
    decreases |pairs|
  {
    if pairs == [] then m else InsertPairs(m[pairs[0].0 := pairs[0].1], pairs[1..])
  }

  /** How many of the pairs bring a field that is not there yet when its turn comes. */
  function NewFields(m: map<Bytes, Bytes>, pairs: seq<(Bytes, Bytes)>): nat
    decreases |pairs|
  {
    if pairs == [] then 0
    else (if pairs[0].0 in m then 0 else 1) + NewFields(m[pairs[0].0 := pairs[0].1], pairs[1..])
  }

  function RemovedFields(m: map<Bytes, Bytes>, fields: seq<Bytes>): nat
    decreases |fields|
  {
    if fields == [] then 0
    else (if fields[0] in m then 1 else 0) + RemovedFields(m - {fields[0]}, fields[1..])
  }

  function RemoveFields(m: map<Bytes, Bytes>, fields: seq<Bytes>): map<Bytes, Bytes>
    decreases |fields|
  {
    if fields == [] then m else RemoveFields(m - {fields[0]}, fields[1..])
  }

  function Added(s: set<Bytes>, values: seq<Bytes>): nat
    decreases |values|
  {
    if values == [] then 0
    else (if values[0] in s then 0 else 1) + Added(s + {values[0]}, values[1..])
  }

  function Removed(s: set<Bytes>, values: seq<Bytes>): nat
    decreases |values|
  {
    if values == [] then 0
    else (if values[0] in s then 1 else 0) + Removed(s - {values[0]}, values[1..])
  }

  function SetOf(values: seq<Bytes>): set<Bytes> {
    set v | v in values
  }

  function Lookup(m: map<Bytes, Bytes>, field: Bytes): Option<Bytes> {
    if field in m then Some(m[field]) else None
  }

  /* ----- expiry ----- */

  predicate Dead(e: Entry, now: Time) {
    e.deadline.Some? && e.deadline.value < now
  }

  /** What a reader at this time can see under a key. */
  function Live(m: Keyspace, k: Bytes, now: Time): Option<Entry> {
    if k in m && !Dead(m[k], now) then Some(m[k]) else None
  }

  /** Looking at a dead key removes it. */
  function Touch(m: Keyspace, k: Bytes, now: Time): Keyspace {
    if k in m && Dead(m[k], now) then m - {k} else m
  }

  function Store(m: Keyspace, k: Bytes, e: Option<Entry>): Keyspace {
    match e
    case None => m - {k}
    case Some(entry) => m[k := entry]
  }

  /** Putting back what is live is touching. */
  lemma StoreWhatIsLive(m: Keyspace, k: Bytes, now: Time)
    ensures Store(m, k, Live(m, k, now)) == Touch(m, k, now)
  {
  }

  /* ----- commands on one key ----- */

  function WrongType(name: CommandName): Reply {
    Exactly(Error(IncorrectUsage(name)))
  }

  function Text(data: Option<Bytes>): Reply {
    Exactly(BulkString(data))
  }

  function Size(n: nat): Reply {
    Exactly(Length(n))
  }

  function Table(rows: Option<seq<Option<Bytes>>>): Reply {
    Exactly(BulkStringArray(rows))
  }

  function OnStrings(op: StringOp, e: Option<Entry>): (Option<Entry>, Reply) {
    match e
    case None =>
      (match op
       case Get => (None, Text(None))
       case Append(suffix) => (Some(Entry(Str(suffix), None)), Size(|suffix|))
       case Strlen => (None, Size(0)))
    case Some(Entry(Str(s), d)) =>
      (match op
       case Get => (e, Text(Some(s)))
       case Append(suffix) => (Some(Entry(Str(s + suffix), d)), Size(|s + suffix|))
       case Strlen => (e, Size(|s|)))
    case _ =>
      (e, WrongType(match op case Get => GET case Append(_) => APPEND case Strlen => STRLEN))
  }

  function Delta(op: CounterOp): i64 {
    match op
    case Incr => 1
    case Decr => -1
    case IncrBy(delta) => delta
  }

  function CounterName(op: CounterOp): CommandName {
    match op
    case Incr => INCR
    case Decr => DECR
    case IncrBy(_) => INCRBY
  }

  function OnCounters(op: CounterOp, e: Option<Entry>): (Option<Entry>, Reply) {
    match e
    case None => (Some(Entry(Str(SignedDecimal(Delta(op))), None)), Exactly(Number(Delta(op))))
    case Some(Entry(Str(s), d)) =>
      (match Sum(s, Delta(op))
       case None => (e, WrongType(CounterName(op)))
       case Some(n) => (Some(Entry(Str(SignedDecimal(n)), d)), Exactly(Number(n))))
    case _ => (e, WrongType(CounterName(op)))
  }

  function HashName(op: HashOp): CommandName {
    match op
    case Hset(_) => HSET
    case Hget(_) => HGET
    case Hmget(_) => HMGET
    case Hdel(_) => HDEL
    case Hexists(_) => HEXISTS
    case Hlen => HLEN
    case Hgetall => HGETALL
  }

  function Lookups(m: map<Bytes, Bytes>, fields: seq<Bytes>): seq<Option<Bytes>> {
    seq(|fields|, i requires 0 <= i < |fields| => Lookup(m, fields[i]))
  }

  /** On a missing key HSET answers the number of pairs, not of fields. */
  function OnHashes(op: HashOp, e: Option<Entry>): (Option<Entry>, Reply) {
    match e
    case None =>
      (match op
       case Hset(pairs) => (Some(Entry(Hash(InsertPairs(map[], pairs)), None)), Exactly(Amount(|pairs|)))
       case Hget(_) => (None, Text(None))
       case Hmget(_) => (None, Table(None))
       case Hdel(_) => (None, Exactly(Amount(0)))
       case Hexists(_) => (None, Exactly(Amount(0)))
       case Hlen => (None, Size(0))
       case Hgetall => (None, Table(None)))
    case Some(Entry(Hash(m), d)) =>
      (match op
       case Hset(pairs) => (Some(Entry(Hash(InsertPairs(m, pairs)), d)), Exactly(Amount(NewFields(m, pairs))))
       case Hget(field) => (e, Text(Lookup(m, field)))
       case Hmget(fields) => (e, Table(Some(Lookups(m, fields))))
       case Hdel(fields) =>
         (Some(Entry(Hash(RemoveFields(m, fields)), d)), Exactly(Amount(RemovedFields(m, fields))))
       case Hexists(field) => (e, Exactly(Amount(if field in m then 1 else 0)))
       case Hlen => (e, Size(|m|))
       case Hgetall => (e, SomeOrderOfFields(m)))
    case _ => (e, WrongType(HashName(op)))
  }

  /** LPUSH puts its arguments in front one by one, RPUSH at the back. */
  function Pushed(side: Side, s: seq<Bytes>, xs: seq<Bytes>): seq<Bytes> {
    match side
    case Left => Reverse(xs) + s
    case Right => s + xs
  }

  function Pushes(side: Side, xs: seq<Bytes>, e: Option<Entry>): (Option<Entry>, Reply) {
    match e
    case None => (Some(Entry(List(Pushed(side, [], xs)), None)), Size(|xs|))
    case Some(Entry(List(s), d)) => (Some(Entry(List(Pushed(side, s, xs)), d)), Size(|s| + |xs|))
    case _ => (e, WrongType(if side.Left? then LPUSH else RPUSH))
  }

  function Min(a: nat, b: nat): nat {
    if a < b then a else b
  }

  /** The first n elements from a side, in the order they come off, and the others. */
  function Popped(side: Side, s: seq<Bytes>, n: nat): seq<Bytes>
    requires n <= |s|
  {
    match side
    case Left => s[..n]
    case Right => Reverse(s[|s| - n..])
  }

  function Unpopped(side: Side, s: seq<Bytes>, n: nat): seq<Bytes>
    requires n <= |s|
  {
    match side
    case Left => s[n..]
    case Right => s[..|s| - n]
  }

  function PopName(side: Side): CommandName {
    if side.Left? then LPOP else RPOP
  }

  /** A list that a pop leaves empty, or finds empty, goes away with its key. */
  function Pops(side: Side, count: Option<nat>, e: Option<Entry>): (Option<Entry>, Reply) {
    match e
    case None => (None, if count.None? then Text(None) else Table(None))
    case Some(Entry(List(s), d)) =>
      var n := Min(if count.None? then 1 else count.value, |s|);
      var left := Unpopped(side, s, n);
      var out := Popped(side, s, n);
      (if left == [] then None else Some(Entry(List(left), d)),
       if count.Some? then Table(Some(Present(out)))
       else if s == [] then Text(None)
       else Text(Some(match side case Left => s[0] case Right => s[|s| - 1])))
    case _ => (e, WrongType(PopName(side)))
  }

  function ItemName(op: ItemOp): CommandName {
    match op
    case Llen => LLEN
    case Lrange(_, _) => LRANGE
    case Lindex(_) => LINDEX
    case Lset(_, _) => LSET
    case Lrem(_, _) => LREM
  }

  function ItemAt(s: seq<Bytes>, i: Option<nat>): Option<Bytes>
    requires i.Some? ==> i.value < |s|
  {
    if i.Some? then Some(s[i.value]) else None
  }

  function OnListItems(op: ItemOp, e: Option<Entry>): (Option<Entry>, Reply) {
    match e
    case None =>
      (match op
       case Llen => (None, Size(0))
       case Lrange(_, _) => (None, Table(Some([])))
       case Lindex(_) => (None, Text(None))
       case Lset(_, _) => (None, WrongType(LSET))
       case Lrem(_, _) => (None, Size(0)))
    case Some(Entry(List(s), d)) =>
      (match op
       case Llen => (e, Size(|s|))
       case Lrange(start, end) => (e, Table(Some(Present(LrangeItems(s, start, end)))))
       case Lindex(index) => (e, Text(ItemAt(s, Position(|s|, index))))
       case Lset(index, x) =>
         (match Position(|s|, index)
          case None => (e, WrongType(LSET))
          case Some(i) => (Some(Entry(List(s[i := x]), d)), Exactly(InfoOk)))
       case Lrem(n, x) => (Some(Entry(List(LremItems(s, n, x)), d)), Size(|s| - |LremItems(s, n, x)|)))
    case _ => (e, WrongType(ItemName(op)))
  }

  function SetName(op: SetOp): CommandName {
    match op
    case Sadd(_) => SADD
    case Srem(_) => SREM
    case Sismember(_) => SISMEMBER
    case Smembers => SMEMBERS
  }

  /** A set that SREM empties goes away with its key. */
  function OnSets(op: SetOp, e: Option<Entry>): (Option<Entry>, Reply) {
    match e
    case None =>
      (match op
       case Sadd(values) => (Some(Entry(Members(SetOf(values)), None)), Size(Added({}, values)))
       case Srem(_) => (None, Size(0))
       case Sismember(_) => (None, Size(0))
       case Smembers => (None, Table(None)))
    case Some(Entry(Members(s), d)) =>
      (match op
       case Sadd(values) => (Some(Entry(Members(s + SetOf(values)), d)), Size(Added(s, values)))
       case Srem(values) =>
         var left := s - SetOf(values);
         (if left == {} then None else Some(Entry(Members(left), d)), Size(Removed(s, values)))
       case Sismember(v) => (e, Size(if v in s then 1 else 0))
       case Smembers => (e, SomeOrderOfMembers(s)))
    case _ => (e, WrongType(SetName(op)))
  }

  function OnDeadlines(op: DeadlineOp, e: Option<Entry>, now: Time): (Option<Entry>, Reply) {
    match op
    case Expire(expiry) =>
      if e.None? then (None, Exactly(Amount(0)))
      else (Some(e.value.(deadline := Some(expiry))), Exactly(Amount(1)))
    case Ttl =>
      if e.None? then (e, Exactly(Number(-2)))
      else if e.value.deadline.None? then (e, Exactly(Number(-1)))
      // A u64 deadline the clock's i64 cannot hold: the sum with the epoch panics.
      else if e.value.deadline.value > I64_MAX then (e, Panicked)
      else (e, Exactly(Number(e.value.deadline.value - now)))
  }

  /** What a command makes of the live entry under its key: the new entry, and the answer. */
  function Act(op: Op, e: Option<Entry>, now: Time): (Option<Entry>, Reply) {
    match op
    case Put(value, deadline) => (Some(Entry(value, deadline)), Exactly(InfoOk))
    case OnString(o) => OnStrings(o, e)
    case OnCounter(o) => OnCounters(o, e)
    case OnHash(o) => OnHashes(o, e)
    case Push(side, xs) => Pushes(side, xs, e)
    case Pop(side, count) => Pops(side, count, e)
    case OnItems(o) => OnListItems(o, e)
    case OnSet(o) => OnSets(o, e)
    case OnDeadline(o) => OnDeadlines(o, e, now)
  }

  /* ----- commands on several keys ----- */

  function DelAll(m: Keyspace, keys: seq<Bytes>, now: Time): (Keyspace, nat)
    decreases |keys|
  {
    if keys == [] then (m, 0)
    else
      var (m', n) := DelAll(m - {keys[0]}, keys[1..], now);
      (m', n + if Live(m, keys[0], now).Some? then 1 else 0)
  }

  function ExistsAll(m: Keyspace, keys: seq<Bytes>, now: Time): (Keyspace, nat)
    decreases |keys|
  {
    if keys == [] then (m, 0)
    else
      var (m', n) := ExistsAll(Touch(m, keys[0], now), keys[1..], now);
      (m', n + if Live(m, keys[0], now).Some? then 1 else 0)
  }

  function StringUnder(e: Option<Entry>): Option<Bytes> {
    match e
    case Some(Entry(Str(s), _)) => Some(s)
    case _ => None
  }

  function MgetAll(m: Keyspace, keys: seq<Bytes>, now: Time): (Keyspace, seq<Option<Bytes>>)
    decreases |keys|
  {
    if keys == [] then (m, [])
    else
      var (m', rows) := MgetAll(Touch(m, keys[0], now), keys[1..], now);
      (m', [StringUnder(Live(m, keys[0], now))] + rows)
  }

  function MsetAll(m: Keyspace, terms: seq<Bytes>): Keyspace
    decreases |terms|
  {
    if |terms| < 2 then m else MsetAll(m[terms[0] := Entry(Str(terms[1]), None)], terms[2..])
  }

  /** Pops alone look at a value's type before they look at its deadline: on a key that does not
      hold a list they answer wrong type, dead or not, and leave it. */
  predicate PopsWrongType(m: Keyspace, k: Bytes, op: Op) {
    op.Pop? && k in m && !m[k].value.List?
  }

  /** Every command. */
  function Exec(m: Keyspace, c: Request, now: Time): (Keyspace, Reply) {
    match c
    case At(k, op) =>
      if PopsWrongType(m, k, op) then (m, WrongType(PopName(op.side)))
      else
        var (e, reply) := Act(op, Live(m, k, now), now);
        (Store(m, k, e), reply)
    case Del(keys) => var (m', n) := DelAll(m, keys, now); (m', Exactly(Amount(n)))
    case Exists(keys) => var (m', n) := ExistsAll(m, keys, now); (m', Exactly(Amount(n)))
    case Mget(keys) => var (m', rows) := MgetAll(m, keys, now); (m', Table(Some(rows)))
    case Mset(terms) => (MsetAll(m, terms), Exactly(InfoOk))
  }
}
