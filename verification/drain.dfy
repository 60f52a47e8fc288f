/** Shipping the queue while the session takes it. */
module Drain {
  import opened Wrappers
  import opened OutboxStore

  const OUTBOX_DRAIN_BATCH := 50

  /**
   * The slice of the session a drain uses. Which offers are refused, counted
   * from 0, is the environment's choice; `decode` is `JSON.parse`.
   */
  class DrainTarget {
    var connected: bool
    var offers: nat
    var sent: seq<string>
    const refused: set<nat>
    const decode: string -> Option<string>

    constructor (refused: set<nat>, decode: string -> Option<string>)
      ensures connected && offers == 0 && sent == [] && this.refused == refused && this.decode == decode
    {
      connected, offers, sent := true, 0, [];
      this.refused, this.decode := refused, decode;
    }

    method Send(message: string) returns (accepted: bool)
      modifies this`offers, this`sent
      ensures offers == old(offers) + 1 && accepted == (old(offers) !in refused)
      ensures sent == if accepted then old(sent) + [message] else old(sent)
    {
      accepted := offers !in refused;
      offers := offers + 1;
      if accepted { sent := sent + [message]; }
    }
  }

  /** The messages of the rows that parse, in order. */
  function Messages(rows: seq<Row>, decode: string -> Option<string>): seq<string> {
    if rows == [] then []
    else
      Messages(rows[..|rows| - 1], decode) +
      match decode(rows[|rows| - 1].payload) { case None => [] case Some(m) => [m] }
  }

  /** Offers from number `first` on are all taken, `count` of them. */
  ghost predicate AllTaken(refused: set<nat>, first: nat, count: nat) {
    forall n :: n in refused ==> !(first <= n < first + count)
  }

  /** Nothing is left to offer, or the oldest row parses and offer number `offer` is refused. */
  ghost predicate StopsBefore(rest: seq<Row>, target: DrainTarget, offer: nat) {
    rest != [] ==> target.decode(rest[0].payload).Some? && offer in target.refused
  }

  /**
   * `k` rows off the front of `rows` are gone and `messages`, those of them that
   * parse, were handed over in order and once each. When the drain is `done`,
   * nothing is left or the next message was refused.
   */
  ghost predicate Shipped(rows: seq<Row>, k: nat, messages: seq<string>, done: bool, target: DrainTarget, first: nat) {
    && k <= |rows| && messages == Messages(rows[..k], target.decode)
    && AllTaken(target.refused, first, |messages|)
    && (done ==> StopsBefore(rows[k..], target, first + |messages|))
  }

  lemma MessagesStep(rows: seq<Row>, n: nat, decode: string -> Option<string>)
    requires n < |rows|
    ensures Messages(rows[..n + 1], decode) ==
            Messages(rows[..n], decode) + match decode(rows[n].payload) { case None => [] case Some(m) => [m] }
  {
    assert rows[..n + 1][..n] == rows[..n];
  }

  lemma BatchStep(rows: seq<Row>, n: nat, decode: string -> Option<string>)
    requires n < |rows|
    ensures Messages(rows[..n + 1], decode) ==
            Messages(rows[..n], decode) + match decode(rows[n].payload) { case None => [] case Some(m) => [m] }
    ensures Ids(rows[..n + 1]) == Ids(rows[..n]) + [rows[n].id]
    ensures rows[n..] != [] && rows[n..][0] == rows[n]
  {
    MessagesStep(rows, n, decode);
  }

  /** One row: a payload that does not parse is passed over, a message the session refuses stops the batch. */
  method OfferRow(row: Row, target: DrainTarget) returns (stopped: bool)
    modifies target`offers, target`sent
    ensures target.decode(row.payload).None? ==>
              !stopped && target.offers == old(target.offers) && target.sent == old(target.sent)
    ensures target.decode(row.payload).Some? ==>
              && stopped == (old(target.offers) in target.refused) && target.offers == old(target.offers) + 1
              && target.sent == old(target.sent) + if stopped then [] else [target.decode(row.payload).value]
  {
    stopped := false;
    var message := target.decode(row.payload);
    if message.Some? {
      var accepted := target.Send(message.value);
      stopped := !accepted;
    }
  }

  lemma NoMessages(batch: seq<Row>, decode: string -> Option<string>)
    ensures Messages(batch[..0], decode) == [] && Ids(batch[..0]) == []
  {}

  /** One batch: the ids to acknowledge are those of the prefix that was sent or cannot be parsed. */
  method SendBatch(batch: seq<Row>, target: DrainTarget) returns (sent: seq<int>, stoppedEarly: bool)
    modifies target`offers, target`sent
    ensures |sent| <= |batch| && sent == Ids(batch[..|sent|])
    ensures var messages := Messages(batch[..|sent|], target.decode);
      && target.sent == old(target.sent) + messages
      && AllTaken(target.refused, old(target.offers), |messages|)
      && (if stoppedEarly then |sent| < |batch| && StopsBefore(batch[|sent|..], target, old(target.offers) + |messages|)
          else |sent| == |batch| && target.offers == old(target.offers) + |messages|)
  {
    hide Messages;
    sent, stoppedEarly := [], false;
    NoMessages(batch, target.decode);
    for i := 0 to |batch|
      invariant sent == Ids(batch[..i])
      invariant target.sent == old(target.sent) + Messages(batch[..i], target.decode)
      invariant target.offers == old(target.offers) + |Messages(batch[..i], target.decode)|
      invariant AllTaken(target.refused, old(target.offers), |Messages(batch[..i], target.decode)|)
    {
      BatchStep(batch, i, target.decode);
      stoppedEarly := OfferRow(batch[i], target);
      if stoppedEarly { return; }
      sent := sent + [batch[i].id];
    }
    assert batch[..|batch|] == batch;
  }

  lemma {:induction false} MessagesConcat(a: seq<Row>, b: seq<Row>, decode: string -> Option<string>)
    ensures Messages(a + b, decode) == Messages(a, decode) + Messages(b, decode)
    decreases |b|
  {
    if b == [] {
      assert a + b == a;
    } else {
      var init, ab := b[..|b| - 1], a + b;
      MessagesConcat(a, init, decode);
      assert ab[..|ab| - 1] == a + init && ab[|ab| - 1] == b[|b| - 1];
      var last := match decode(b[|b| - 1].payload) { case None => [] case Some(m) => [m] };
      var front, more := Messages(a, decode), Messages(init, decode);
      assert front + more + last == front + (more + last);
    }
  }

  /** A batch taken off the front of what an earlier batch left. */
  lemma BatchesCompose(all: seq<Row>, k: nat, batch: seq<Row>, n: nat, decode: string -> Option<string>)
    requires k <= |all| && n <= |batch| && batch <= all[k..]
    ensures all[..k + n] == all[..k] + batch[..n]
    ensures Messages(all[..k + n], decode) == Messages(all[..k], decode) + Messages(batch[..n], decode)
  {
    assert all[..k + n] == all[..k] + batch[..n];
    MessagesConcat(all[..k], batch[..n], decode);
  }

  lemma ShippedFromBatch(rows: seq<Row>, batch: seq<Row>, k: nat, messages: seq<string>, done: bool,
                         target: DrainTarget, first: nat)
    requires batch <= rows && (done ==> k < |batch|) && Shipped(batch, k, messages, done, target, first)
    ensures Shipped(rows, k, messages, done, target, first) && Ids(batch[..k]) == Ids(rows[..k])
  {
    assert batch[..k] == rows[..k];
    assert done ==> batch[k..][0] == rows[k..][0];
  }

  lemma ShippedMore(before: seq<Row>, n: nat, sofar: seq<string>, m: nat, messages: seq<string>, done: bool,
                    target: DrainTarget, first: nat)
    requires Shipped(before, n, sofar, false, target, first)
    requires Shipped(before[n..], m, messages, done, target, first + |sofar|)
    ensures Shipped(before, n + m, sofar + messages, done, target, first)
    ensures n + m <= |before| && before[n..][m..] == before[n + m..]
  {
    BatchesCompose(before, n, before[n..], m, target.decode);
  }

  /** One turn of the loop: peek, send, acknowledge. */
  method DrainBatch(outbox: Outbox, target: DrainTarget) returns (done: bool, ghost m: nat, ghost messages: seq<string>)
    requires outbox.Valid()
    modifies outbox`rows, outbox`depth, outbox`acknowledged, target`offers, target`sent
    ensures outbox.Valid()
    ensures Shipped(old(outbox.rows), m, messages, done, target, old(target.offers))
    ensures outbox.rows == old(outbox.rows)[m..]
    ensures target.sent == old(target.sent) + messages
    ensures m <= |old(outbox.rows)| && (!done ==> m > 0 && target.offers == old(target.offers) + |messages|)
  {
    m, messages := 0, [];
    var batch := outbox.Peek(OUTBOX_DRAIN_BATCH);
    if |batch| == 0 { return true, 0, []; }
    var sent;
    sent, done := SendBatch(batch, target);
    m, messages := |sent|, Messages(batch[..|sent|], target.decode);
    ShippedFromBatch(outbox.rows, batch, m, messages, done, target, old(target.offers));
    WithoutPrefix(outbox.rows, m);
    outbox.Acknowledge(sent);
  }

  /** One more turn, after `n` rows of `before` have already gone. */
  method DrainMore(outbox: Outbox, target: DrainTarget, ghost before: seq<Row>, ghost first: nat, ghost n: nat,
                   ghost sofar: seq<string>, ghost sentBefore: seq<string>)
    returns (done: bool, ghost n': nat, ghost messages: seq<string>)
    requires outbox.Valid()
    requires Shipped(before, n, sofar, false, target, first)
    requires outbox.rows == before[n..] && target.offers == first + |sofar| && target.sent == sentBefore + sofar
    modifies outbox`rows, outbox`depth, outbox`acknowledged, target`offers, target`sent
    ensures outbox.Valid()
    ensures Shipped(before, n', messages, done, target, first)
    ensures n' <= |before| && outbox.rows == before[n'..] && target.sent == sentBefore + messages
    ensures !done ==> n < n' && target.offers == first + |messages|
  {
    hide Shipped;
    ghost var m, more;
    done, m, more := DrainBatch(outbox, target);
    ShippedMore(before, n, sofar, m, more, done, target, first);
    n', messages := n + m, sofar + more;
  }

  /** Returns, for the proof, how many rows went and the messages they held. */
  method DrainOutbox(outbox: Outbox, target: DrainTarget) returns (ghost n: nat, ghost messages: seq<string>)
    requires outbox.Valid()
    modifies outbox`rows, outbox`depth, outbox`acknowledged, target`offers, target`sent
    ensures outbox.Valid()
    ensures !target.connected ==> n == 0
    ensures target.connected ==> Shipped(old(outbox.rows), n, messages, true, target, old(target.offers))
    ensures n <= |old(outbox.rows)| && outbox.rows == old(outbox.rows)[n..]
    ensures target.sent == old(target.sent) + messages && (n == 0 ==> messages == [])
  {
    n, messages := 0, [];
    if !target.connected { return; }
    ghost var before, first, sentBefore := outbox.rows, target.offers, target.sent;
    var done := false;
    while !done
      invariant outbox.Valid()
      invariant n <= |before| && Shipped(before, n, messages, done, target, first)
      invariant outbox.rows == before[n..] && target.sent == sentBefore + messages
      invariant !done ==> target.offers == first + |messages|
      decreases !done, |before| - n
    {
      done, n, messages := DrainMore(outbox, target, before, first, n, messages, sentBefore);
    }
  }

  /** When no send is refused the queue ends empty. */
  lemma NothingRefusedDrainsAll(rows: seq<Row>, n: nat, messages: seq<string>, target: DrainTarget, first: nat)
    requires Shipped(rows, n, messages, true, target, first) && target.refused == {}
    ensures rows[n..] == [] && messages == Messages(rows, target.decode)
  {
    assert rows[..|rows|] == rows;
  }

  lemma {:induction false} FewerMessages(rows: seq<Row>, m: nat, n: nat, decode: string -> Option<string>)
    requires m <= n <= |rows|
    ensures Messages(rows[..m], decode) <= Messages(rows[..n], decode)
    decreases n - m
  {
    if m < n {
      FewerMessages(rows, m, n - 1, decode);
      MessagesStep(rows, n - 1, decode);
    }
  }

  /** Where a drain stops is decided by the rows and the offers alone: batching cannot be seen. */
  lemma DrainIsDetermined(rows: seq<Row>, n: nat, messages: seq<string>, n': nat, messages': seq<string>,
                          target: DrainTarget, first: nat)
    requires Shipped(rows, n, messages, true, target, first) && Shipped(rows, n', messages', true, target, first)
    ensures n == n' && messages == messages'
  {
    if n < n' {
      StopIsFinal(rows, n, n', target, first);
    } else if n' < n {
      StopIsFinal(rows, n', n, target, first);
    }
  }

  lemma StopIsFinal(rows: seq<Row>, n: nat, n': nat, target: DrainTarget, first: nat)
    requires n < n' <= |rows| && StopsBefore(rows[n..], target, first + |Messages(rows[..n], target.decode)|)
    ensures !AllTaken(target.refused, first, |Messages(rows[..n'], target.decode)|)
  {
    MessagesStep(rows, n, target.decode);
    FewerMessages(rows, n + 1, n', target.decode);
    assert rows[n..][0] == rows[n];
    assert first + |Messages(rows[..n], target.decode)| in target.refused;
  }
}
