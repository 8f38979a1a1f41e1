/** From a client's requests to the bytes it reads. */
module EndToEnd {
  import opened Bytes
  import opened Numbers
  import opened Replies
  import opened Resp
  import opened Keyspace
  import Entries
  import KeyspaceLaws
  import T = Temples
  import H = Handoff
  import E = Egress
  import opened Heaven
  import opened Subscribers
  import Clients

  /* ----- a read finds the last write ----- */

  /** The request is SET k v, with this deadline. */
  predicate Sets(mean: Meaning, w: H.Wish, k: Bytes, v: Bytes, d: Option<nat>) {
    Asked(mean, w).Database? && Asked(mean, w).request == At(k, Put(Str(v), d))
  }

  /** The request is GET k. */
  predicate Gets(mean: Meaning, w: H.Wish, k: Bytes) {
    Asked(mean, w).Database? && Asked(mean, w).request == At(k, OnString(Get))
  }

  /** The request is a command that names k. */
  predicate Touches(mean: Meaning, w: H.Wish, k: Bytes) {
    Asked(mean, w).Database? && KeyspaceLaws.Names(Asked(mean, w).request, k)
  }

  lemma NobodySubscribed(mean: Meaning, ws: seq<H.Wish>, t: Token)
    requires forall e :: !Subscribed(mean, ws, t, e)
    ensures T.ChannelsOf(HistoryOf(mean, ws), t) == {}
  {
    var held := AllChannelsAreSubscriptions(mean, ws, t);
    assert forall e :: e !in held;
  }

  /** From SET on, as long as no other request names the key, the key holds what was set. */
  lemma {:induction false} HoldsWhatWasSet(mean: Meaning, ws: seq<H.Wish>, i: nat, j: nat, k: Bytes, v: Bytes,
                                           d: Option<nat>)
    requires i < j <= |ws| && Sets(mean, ws[i], k, v, d) && forall e :: !Subscribed(mean, ws[..i], ws[i].token, e)
    requires forall n :: i < n < j ==> !Touches(mean, ws[n], k)
    ensures k in KeyspaceOf(mean, ws[..j]) && KeyspaceOf(mean, ws[..j])[k] == Entry(Str(v), d)
    decreases j
  {
    var before, w := ws[..j - 1], ws[j - 1];
    assert ws[..j] == before + [w];
    OneMoreServed(mean, before, w);
    if j == i + 1 {
      NobodySubscribed(mean, before, w.token);
      Entries.SetStores(KeyspaceOf(mean, before), k, Asked(mean, w).now, Str(v), d);
    } else {
      HoldsWhatWasSet(mean, ws, i, j - 1, k, v, d);
      UntouchedStays(mean, before, w, k);
    }
  }

  lemma UntouchedStays(mean: Meaning, ws: seq<H.Wish>, w: H.Wish, k: Bytes)
    requires !Touches(mean, w, k)
    ensures KeyspaceLaws.SameAt(KeyspaceOf(mean, ws), KeyspaceOf(mean, ws + [w]), k)
  {
    OneMoreServed(mean, ws, w);
    if Asked(mean, w).Database? {
      KeyspaceLaws.ExecFrame(KeyspaceOf(mean, ws), Asked(mean, w).request, k, Asked(mean, w).now);
    }
  }

  /** A GET finds what the last request that named its key has set, unless the deadline it was set with has
      passed. */
  lemma ReadsLastWrite(mean: Meaning, ws: seq<H.Wish>, ds: seq<T.Decree>, i: nat, j: nat, k: Bytes, v: Bytes,
                       d: Option<nat>)
    requires Sequential(mean, ws, ds) && i < j < |ws|
    requires Sets(mean, ws[i], k, v, d) && forall e :: !Subscribed(mean, ws[..i], ws[i].token, e)
    requires Gets(mean, ws[j], k) && forall e :: !Subscribed(mean, ws[..j], ws[j].token, e)
    requires forall n :: i < n < j ==> !Touches(mean, ws[n], k)
    ensures var seen := d.None? || Asked(mean, ws[j]).now <= d.value;
            ds[j] == T.Deliver(ws[j].token, BulkString(if seen then Some(v) else None))
  {
    HoldsWhatWasSet(mean, ws, i, j, k, v, d);
    assert Heaven.Right(mean, ws[..j], ws[j], ds[j]);
    NobodySubscribed(mean, ws[..j], ws[j].token);
    GetReads(KeyspaceOf(mean, ws[..j]), k, Asked(mean, ws[j]).now, v, d);
  }

  lemma GetReads(m: Keyspace, k: Bytes, now: Time, v: Bytes, d: Option<nat>)
    requires k in m && m[k] == Entry(Str(v), d)
    ensures Exec(m, At(k, OnString(Get)), now).1 ==
            Exactly(BulkString(if d.None? || now <= d.value then Some(v) else None))
  {
  }

  /** SET is answered OK. */
  lemma SetIsAnswered(mean: Meaning, ws: seq<H.Wish>, ds: seq<T.Decree>, i: nat, k: Bytes, v: Bytes, d: Option<nat>)
    requires Sequential(mean, ws, ds) && i < |ws|
    requires Sets(mean, ws[i], k, v, d) && forall e :: !Subscribed(mean, ws[..i], ws[i].token, e)
    ensures ds[i] == T.Deliver(ws[i].token, InfoOk)
  {
    assert Heaven.Right(mean, ws[..i], ws[i], ds[i]);
    NobodySubscribed(mean, ws[..i], ws[i].token);
  }

  /* ----- down to the bytes ----- */

  lemma TwoReplies(t: Token, r0: Response, r1: Response)
    ensures E.Sent([T.Welcome(t), T.Deliver(t, r0), T.Deliver(t, r1)], t) == Values(r0) + Values(r1)
  {
    E.SentNext([T.Welcome(t)], T.Deliver(t, r0), t);
    E.OneFrame(t, r0);
    assert [T.Welcome(t)] + [T.Deliver(t, r0)] == [T.Welcome(t), T.Deliver(t, r0)];
    E.SentNext([T.Welcome(t), T.Deliver(t, r0)], T.Deliver(t, r1), t);
    E.OneFrame(t, r1);
    assert [T.Welcome(t), T.Deliver(t, r0)] + [T.Deliver(t, r1)] == [T.Welcome(t), T.Deliver(t, r0), T.Deliver(t, r1)];
    assert E.Sent([T.Welcome(t)], t) == [];
    assert [] + Values(r0) == Values(r0);
  }

  /** The answers to SET k v and then GET k. */
  lemma TwoAnswers(mean: Meaning, t: Token, ws: seq<H.Wish>, ds: seq<T.Decree>, k: Bytes, v: Bytes)
    requires |ws| == 2 && ws[0].token == t == ws[1].token && Sequential(mean, ws, ds)
    requires Sets(mean, ws[0], k, v, None) && Gets(mean, ws[1], k)
    ensures ds == [T.Deliver(t, InfoOk), T.Deliver(t, BulkString(Some(v)))]
  {
    forall e ensures !Subscribed(mean, ws[..0], t, e) && !Subscribed(mean, ws[..1], t, e) {
      assert !Joins(mean, ws[..1][0], t, e);
    }
    SetIsAnswered(mean, ws, ds, 0, k, v, None);
    ReadsLastWrite(mean, ws, ds, 0, 1, k, v, None);
  }

  lemma TwoRepliesAreRead(t: Token, fates: Token -> seq<E.Fate>, r0: Response, r1: Response, all: seq<T.Decree>)
    requires InRange(r0) && InRange(r1) && all == [T.Welcome(t), T.Deliver(t, r0), T.Deliver(t, r1)]
    ensures var stream := E.Stream(fates, all, t);
            stream.failures == 0 ==> ReadAll(stream.written) == Some(Values(r0) + Values(r1))
  {
    TwoReplies(t, r0, r1);
    E.ClientsReadWhatWasSent(fates, all, t);
  }

  lemma OkThenValue(v: Bytes)
    ensures Values(InfoOk) + Values(BulkString(Some(v))) == [Simple(Ascii("OK")), Bulk(Some(v))]
  {
  }

  lemma OkThenValueIsRead(t: Token, fates: Token -> seq<E.Fate>, v: Bytes, ds: seq<T.Decree>)
    requires |v| <= U64_MAX && ds == [T.Deliver(t, InfoOk), T.Deliver(t, BulkString(Some(v)))]
    ensures var stream := E.Stream(fates, [T.Welcome(t)] + ds, t);
            stream.failures == 0 ==> ReadAll(stream.written) == Some([Simple(Ascii("OK")), Bulk(Some(v))])
  {
    TwoRepliesAreRead(t, fates, InfoOk, BulkString(Some(v)), [T.Welcome(t)] + ds);
    OkThenValue(v);
  }

  /** SET k v and then GET k: a RESP2 reader of the client's stream finds OK, and then v. */
  lemma SetThenGetIsRead(mean: Meaning, t: Token, ws: seq<H.Wish>, ds: seq<T.Decree>,
                         fates: Token -> seq<E.Fate>, k: Bytes, v: Bytes)
    requires |ws| == 2 && ws[0].token == t == ws[1].token && Sequential(mean, ws, ds)
    requires Sets(mean, ws[0], k, v, None) && Gets(mean, ws[1], k) && |v| <= U64_MAX
    ensures var stream := E.Stream(fates, [T.Welcome(t)] + ds, t);
            stream.failures == 0 ==> ReadAll(stream.written) == Some([Simple(Ascii("OK")), Bulk(Some(v))])
  {
    TwoAnswers(mean, t, ws, ds, k, v);
    OkThenValueIsRead(t, fates, v, ds);
  }

  /* ----- in every interleaving ----- */

  lemma MineGrows(ws: seq<H.Wish>, i: nat, j: nat, t: Token)
    requires i < j <= |ws|
    ensures |H.Mine(ws[..i], t)| + (if ws[i].token == t then 1 else 0) <= |H.Mine(ws[..j], t)| <= |H.Mine(ws, t)|
  {
    assert ws[..i + 1][..i] == ws[..i];
    assert ws[..j] == ws[..i + 1] + ws[i + 1..j] && ws == ws[..j] + ws[j..];
    H.OneMoreWish(ws[..i], ws[i], t);
    assert ws[..i + 1] == ws[..i] + [ws[i]];
    H.MineAppend(ws[..i + 1], ws[i + 1..j], t);
    H.MineAppend(ws[..j], ws[j..], t);
  }

  lemma MineAt(ws: seq<H.Wish>, n: nat)
    requires n < |ws|
    ensures var mine, i := H.Mine(ws, ws[n].token), |H.Mine(ws[..n], ws[n].token)|;
            i < |mine| && mine[i] == ws[n].job
  {
    var t := ws[n].token;
    assert ws == ws[..n] + [ws[n]] + ws[n + 1..];
    H.OneMoreWish(ws[..n], ws[n], t);
    H.MineAppend(ws[..n] + [ws[n]], ws[n + 1..], t);
  }

  /** The requests a client sends for the Temple thread, each with its place. */
  function Request(streams: Token -> seq<H.Job>, t: Token, n: nat): H.Wish
    requires n < |H.RoutedOf(streams(t))|
  {
    H.Wish(t, H.RoutedOf(streams(t))[n])
  }

  /** Everything served is one of them, at the place it has among the client's requests. */
  lemma ServedIsRequested(s: H.System, streams: Token -> seq<H.Job>, n: nat)
    requires H.Inv(s) && s.streams == streams && n < |s.served|
    ensures var w := s.served[n];
            var i := |H.Mine(s.served[..n], w.token)|;
            i < |H.RoutedOf(streams(w.token))| && w == Request(streams, w.token, i)
  {
    Clients.ServedInOrder(s, s.served[n].token);
    MineAt(s.served, n);
  }

  /** Between a client's p-th and q-th request nobody else names the key, and the client subscribes to
      nothing. */
  ghost predicate Undisturbed(mean: Meaning, streams: Token -> seq<H.Job>, t: Token, p: nat, q: nat, k: Bytes) {
    && (forall t', n: nat :: n < |H.RoutedOf(streams(t'))| && (t' != t || p < n < q) ==>
          !Touches(mean, Request(streams, t', n), k))
    && (forall n: nat :: n < |H.RoutedOf(streams(t))| ==> !Asked(mean, Request(streams, t, n)).Subscribe?)
  }

  lemma NothingBetween(mean: Meaning, s: H.System, streams: Token -> seq<H.Job>, t: Token, p: nat, q: nat, k: Bytes,
                       i: nat, j: nat)
    requires H.Inv(s) && s.streams == streams && Undisturbed(mean, streams, t, p, q, k)
    requires i < j < |s.served| && s.served[i].token == t == s.served[j].token
    requires |H.Mine(s.served[..i], t)| == p && |H.Mine(s.served[..j], t)| == q
    ensures forall n :: i < n < j ==> !Touches(mean, s.served[n], k)
    ensures forall n: nat, e :: n <= |s.served| ==> !Subscribed(mean, s.served[..n], t, e)
  {
    var ws := s.served;
    forall n | i < n < j ensures !Touches(mean, ws[n], k) {
      ServedIsRequested(s, streams, n);
      if ws[n].token == t {
        MineGrows(ws, i, n, t);
        MineGrows(ws, n, j, t);
      }
    }
    forall n: nat, e | n <= |ws| ensures !Subscribed(mean, ws[..n], t, e) {
      forall m | 0 <= m < n ensures !Joins(mean, ws[..n][m], t, e) {
        ServedIsRequested(s, streams, m);
      }
    }
  }

  lemma EarlierComesFirst(ws: seq<H.Wish>, t: Token, i: nat, j: nat)
    requires i < |ws| && j < |ws| && |H.Mine(ws[..i], t)| < |H.Mine(ws[..j], t)|
    ensures i < j
  {
    if j < i {
      MineGrows(ws, j, i, t);
    }
  }

  /** In every interleaving a client reads its own write. If its p-th request for the Temple thread is SET k v,
      its q-th is GET k, and no other request of anyone names the key between them, then its q-th answer is v. */
  lemma ReadsItsOwnWrite(mean: Meaning, streams: Token -> seq<H.Job>, steps: seq<H.Step>, states: seq<Whole>,
                         t: Token, p: nat, q: nat, k: Bytes, v: Bytes)
    requires Runs(mean, streams, steps, states) && p < q < |H.Mine(states[|steps|].system.served, t)|
    requires q < |H.RoutedOf(streams(t))| && Undisturbed(mean, streams, t, p, q, k)
    requires Sets(mean, Request(streams, t, p), k, v, None) && Gets(mean, Request(streams, t, q), k)
    ensures var s := states[|steps|];
            var answers := Clients.AnswersTo(s.system.outbox, s.sent, t);
            q < |answers| && answers[q] == T.Deliver(t, BulkString(Some(v)))
  {
    var s := states[|steps|];
    var ws, ds := s.system.served, AnswersIn(s.system.outbox, s.sent);
    var i := Clients.ClientsGetTheirAnswers(mean, streams, steps, states, t, p);
    var j := Clients.ClientsGetTheirAnswers(mean, streams, steps, states, t, q);
    EarlierComesFirst(ws, t, i, j);
    RunsAreRuns(mean, streams, steps, states, |steps|);
    H.RunKeepsInv(streams, steps[..|steps|]);
    NothingBetween(mean, s.system, streams, t, p, q, k, i, j);
    HoldsWhatWasSet(mean, ws, i, j, k, v, None);
    NobodySubscribed(mean, ws[..j], t);
    GetReads(KeyspaceOf(mean, ws[..j]), k, Asked(mean, ws[j]).now, v, None);
  }
}
