/**
 * Recording the messages of one WebSocket connection: offers that never wait, a bounded
 * queue, and one writer that stores what is queued in batches while offers go on.
 */
module WsRecorder {

  const MAX_MESSAGES: nat := 10000
  const QUEUE: nat := 4096
  const BATCH: nat := 256
  const PROGRESS_EVERY: nat := 20

  // What a write of messages came to.
  datatype Batch<M> = Batch(messages: seq<M>, kept: bool)

  // What the entry is told when the connection closes.
  datatype Info = Info(messages: nat, dropped: nat)

  // ---- what a history comes to -------------------------------------------

  // All the messages of the batches, in the order they were written.
  function Flat<M>(batches: seq<Batch<M>>): seq<M> {
    if batches == [] then [] else Flat(batches[..|batches| - 1]) + batches[|batches| - 1].messages
  }

  // How many of them were stored, and how many were not.
  function Kept<M>(batches: seq<Batch<M>>): nat {
    if batches == [] then 0
    else
      var last := batches[|batches| - 1];
      Kept(batches[..|batches| - 1]) + if last.kept then |last.messages| else 0
  }

  function Failed<M>(batches: seq<Batch<M>>): nat {
    if batches == [] then 0
    else
      var last := batches[|batches| - 1];
      Failed(batches[..|batches| - 1]) + if last.kept then 0 else |last.messages|
  }

  // The offers that were taken, by what was answered to each.
  function Taken<M>(offered: seq<M>, took: seq<bool>): seq<M>
    requires |took| == |offered|
  {
    if offered == [] then []
    else
      var n := |offered| - 1;
      Taken(offered[..n], took[..n]) + if took[n] then [offered[n]] else []
  }

  function Refused(took: seq<bool>): nat {
    if took == [] then 0 else Refused(took[..|took| - 1]) + if took[|took| - 1] then 0 else 1
  }

  lemma BatchesMore<M>(batches: seq<Batch<M>>, b: Batch<M>)
    ensures Flat(batches + [b]) == Flat(batches) + b.messages
    ensures Kept(batches + [b]) == Kept(batches) + if b.kept then |b.messages| else 0
    ensures Failed(batches + [b]) == Failed(batches) + if b.kept then 0 else |b.messages|
  {
    assert (batches + [b])[..|batches|] == batches;
  }

  lemma OffersMore<M>(offered: seq<M>, took: seq<bool>, m: M, yes: bool)
    requires |took| == |offered|
    ensures Taken(offered + [m], took + [yes]) == Taken(offered, took) + if yes then [m] else []
    ensures Refused(took + [yes]) == Refused(took) + if yes then 0 else 1
  {
    assert (offered + [m])[..|offered|] == offered && (took + [yes])[..|took|] == took;
  }

  /** What is offered is taken or refused, and what is written was stored or failed: nothing is lost sight of. */
  lemma {:induction false} NothingIsLost<M>(offered: seq<M>, took: seq<bool>, batches: seq<Batch<M>>)
    requires |took| == |offered|
    ensures |offered| == |Taken(offered, took)| + Refused(took)
    ensures |Flat(batches)| == Kept(batches) + Failed(batches)
    decreases |offered|, |batches|
  {
    if offered != [] {
      var n := |offered| - 1;
      NothingIsLost(offered[..n], took[..n], batches);
    } else if batches != [] {
      NothingIsLost(offered, took, batches[..|batches| - 1]);
    }
  }

  // ---- the recorder ------------------------------------------------------

  // What happens on the other goroutines while the writer is between two steps: messages offered, or the ticker firing.
  datatype Turn<M> = Turn(offers: seq<M>, tick: bool)

  class Recorder<M> {
    var queue: seq<M>
    var count: nat
    var dropped: nat
    var stored: nat

    // The message count on the entry, which a page opened meanwhile sees.
    var shown: nat

    // Every offer and what was answered to it, the batches written, and what the writer has in hand.
    ghost var offered: seq<M>
    ghost var took: seq<bool>
    ghost var batches: seq<Batch<M>>
    ghost var hand: seq<M>

    // The last count the store was asked to show.
    ghost var told: nat

    // Every message taken is in a batch, in hand, or queued, in the order they were taken.
    ghost predicate Valid()
      reads this
    {
      && |took| == |offered| && count == |Taken(offered, took)| && dropped == Refused(took)
      && count <= MAX_MESSAGES && |queue| <= QUEUE
      && Flat(batches) + hand + queue == Taken(offered, took)
      && (forall i :: 0 <= i < |batches| ==> 1 <= |batches[i].messages| <= BATCH)
      && shown <= told <= Kept(batches)
    }

    constructor ()
      ensures Valid() && offered == [] && batches == [] && hand == [] && queue == []
    {
      queue, count, dropped, stored, shown := [], 0, 0, 0, 0;
      offered, took, batches, hand, told := [], [], [], [], 0;
    }

    /**
     * An offer is taken when the connection is under the cap and the queue has room, and is counted
     * dropped otherwise.
     */
    method WSMessage(m: M)
      requires Valid()
      modifies this`queue, this`count, this`dropped, this`offered, this`took
      ensures Valid() && offered == old(offered) + [m]
      ensures var room := old(count) < MAX_MESSAGES && |old(queue)| < QUEUE;
              && took == old(took) + [room]
              && queue == (if room then old(queue) + [m] else old(queue))
    {
      OffersMore(offered, took, m, count < MAX_MESSAGES && |queue| < QUEUE);
      offered := offered + [m];
      took := took + [count < MAX_MESSAGES && |queue| < QUEUE];
      if count >= MAX_MESSAGES {
        dropped := dropped + 1;
        return;
      }
      if |queue| < QUEUE {
        Appended(Flat(batches) + hand, queue, m);
        queue := queue + [m];
        count := count + 1;
      } else {
        dropped := dropped + 1;
      }
    }

    // One turn of the others: each offer is made, whole.
    method Others(turn: Turn<M>)
      requires Valid()
      modifies this`queue, this`count, this`dropped, this`offered, this`took
      ensures Valid() && offered == old(offered) + turn.offers && old(queue) <= queue
    {
      var left := turn.offers;
      while |left| > 0
        invariant Valid() && offered + left == old(offered) + turn.offers && old(queue) <= queue
      {
        ghost var was := offered;
        WSMessage(left[0]);
        OneOffer(was, left);
        left := left[1..];
      }
      assert offered + [] == offered;
    }

    // The count goes on the entry, if the store will have it.
    method SetCount(n: nat)
      requires Valid() && told <= n <= Kept(batches)
      modifies this`shown, this`told
      ensures Valid() && told == n && (shown == n || shown == old(shown))
    {
      var ok: bool := *;
      told := n;
      if ok {
        shown := n;
      }
    }

    // One message is received, and then whatever else is queued, while offers go on.
    method TakeBatch(world: seq<Turn<M>>) returns (batch: seq<M>, rest: seq<Turn<M>>)
      requires Valid() && queue != [] && hand == []
      modifies this`queue, this`count, this`dropped, this`offered, this`took, this`hand
      ensures Valid() && batch == hand && 1 <= |batch| <= BATCH
      ensures |batch| == BATCH || queue == []
      ensures |rest| <= |world| && Offers(old(offered), world) == Offers(offered, rest)
      ensures |rest| < |world| || |queue| < |old(queue)|
    {
      var m := Receive();
      batch, rest := [m], world;
      while |batch| < BATCH
        invariant Valid() && batch == hand && 1 <= |batch| <= BATCH
        invariant |rest| <= |world| && Offers(old(offered), world) == Offers(offered, rest)
        invariant |rest| < |world| || |queue| < |old(queue)|
      {
        if |rest| > 0 {
          Others(rest[0]);
          rest := rest[1..];
        }
        if |queue| == 0 {
          break;
        }
        m := Receive();
        batch := batch + [m];
      }
    }

    method Receive() returns (m: M)
      requires Valid() && queue != []
      modifies this`queue, this`hand
      ensures Valid() && m == old(queue)[0] && hand == old(hand) + [m] && queue == old(queue)[1..]
    {
      Received(Flat(batches), hand, queue);
      m := queue[0];
      hand := hand + [m];
      queue := queue[1..];
    }

    // The batch in hand is written, or is lost with the error.
    method PutBatch(batch: seq<M>, n: nat) returns (n': nat)
      requires Valid() && batch == hand && 1 <= |batch| <= BATCH && n == Kept(batches)
      modifies this`batches, this`hand
      ensures Valid() && hand == [] && n <= n' == Kept(batches)
      ensures exists ok :: batches == old(batches) + [Batch(batch, ok)]
    {
      var ok := *;
      BatchesMore(batches, Batch(batch, ok));
      batches := batches + [Batch(batch, ok)];
      hand := [];
      n' := if ok then n + |batch| else n;
      assert Flat(batches) + [] == Flat(batches);
    }

    method WriteBatch(n: nat, world: seq<Turn<M>>) returns (n': nat, rest: seq<Turn<M>>)
      requires Valid() && queue != [] && hand == [] && n == Kept(batches)
      modifies this
      ensures Valid() && hand == [] && n' == Kept(batches) && n <= n' && told == old(told)
      ensures |rest| <= |world| && Offers(old(offered), world) == Offers(offered, rest)
      ensures |rest| < |world| || |queue| < |old(queue)|
    {
      var batch;
      batch, rest := TakeBatch(world);
      n' := PutBatch(batch, n);
    }

    // Writes the count unless it is written already.
    method Persist(n: nat, written: nat) returns (now: nat)
      requires Valid() && n == Kept(batches) && written == told
      modifies this`shown, this`told
      ensures Valid() && now == n == told
    {
      if n != written {
        SetCount(n);
      }
      now := n;
    }

    /**
     * The writer: it drains the queue until the connection closes and nothing is left. world is
     * what the others do meanwhile, turn by turn, up to the close.
     */
    method Drain(world: seq<Turn<M>>)
      requires Valid() && hand == [] && batches == []
      modifies this
      ensures Valid() && queue == [] && hand == []
      ensures offered == Offers(old(offered), world)
      ensures Flat(batches) == Taken(offered, took)
      ensures stored == Kept(batches) && stored < told + PROGRESS_EVERY
    {
      var n: nat, written: nat := 0, 0;
      var rest := world;
      while |rest| > 0 || |queue| > 0
        invariant Valid() && hand == [] && n == Kept(batches) && written == told && n < told + PROGRESS_EVERY
        invariant Offers(old(offered), world) == Offers(offered, rest)
        decreases |rest|, |queue|
      {
        var tick := false;
        if |rest| > 0 {
          Others(rest[0]);
          tick := rest[0].tick;
          rest := rest[1..];
        }
        if |queue| > 0 && !tick {
          n, rest := WriteBatch(n, rest);
          if n - written >= PROGRESS_EVERY {
            written := Persist(n, written);
          }
        } else if tick {
          written := Persist(n, written);
        }
      }
      stored := n;
      assert Flat(batches) + [] + [] == Flat(batches);
    }

    /** When the close is reported every offer is accounted for: stored, failed with its batch, or dropped. */
    method WSClosed() returns (info: Info)
      requires Valid() && queue == [] && hand == [] && stored == Kept(batches)
      ensures info.messages == Kept(batches) && info.dropped == Refused(took)
      ensures info.messages + Failed(batches) + info.dropped == |offered|
      ensures info.messages <= MAX_MESSAGES
    {
      NothingIsLost(offered, took, batches);
      assert Flat(batches) + [] + [] == Flat(batches);
      info := Info(stored, dropped);
    }
  }

  // Every offer there has been once the turns are over.
  ghost function Offers<M>(offered: seq<M>, world: seq<Turn<M>>): seq<M>
    decreases |world|
  {
    if world == [] then offered else Offers(offered + world[0].offers, world[1..])
  }

  lemma OneOffer<M>(offered: seq<M>, left: seq<M>)
    requires left != []
    ensures offered + [left[0]] + left[1..] == offered + left
  {
  }

  lemma Appended<M>(front: seq<M>, queue: seq<M>, m: M)
    ensures front + (queue + [m]) == front + queue + [m]
  {
  }

  lemma Received<M>(front: seq<M>, hand: seq<M>, queue: seq<M>)
    requires queue != []
    ensures front + (hand + [queue[0]]) + queue[1..] == front + hand + queue
  {
  }
}
