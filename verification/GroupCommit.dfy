/**
 Group commit: which queued writers the front writer commits together
 (`DBImpl::BuildBatchGroup`).
 */
module GroupCommit {
  import opened Mvcc

  // A queued writer. The null batch only waits for its turn; `bytes` is the size of
  // the encoded batch, `id` the order of arrival.
  datatype Writer = Writer(id: nat, batch: Option<seq<Mutation>>, bytes: nat, sync: bool) {
    function Ops(): seq<Mutation> { if batch.Some? then batch.value else [] }
  }

  function Ops(writers: seq<Writer>): seq<Mutation> {
    if writers == [] then [] else Ops(writers[..|writers| - 1]) + writers[|writers| - 1].Ops()
  }

  function BatchBytes(writers: seq<Writer>): nat {
    if writers == [] then 0
    else BatchBytes(writers[..|writers| - 1]) +
         if writers[|writers| - 1].batch.Some? then writers[|writers| - 1].bytes else 0
  }

  // A group may grow to 1 MB, but a small leader is not slowed down by more than 128 KB.
  function MaxBytes(leader: nat): nat {
    if leader <= 0x2_0000 then leader + 0x2_0000 else 0x10_0000
  }

  // Writer i may join the group of everyone before it.
  predicate Joins(queue: seq<Writer>, i: nat)
    requires 0 < i < |queue|
  {
    && (queue[i].sync ==> queue[0].sync)
    && (queue[i].batch.Some? ==> BatchBytes(queue[..i + 1]) <= MaxBytes(queue[0].bytes))
  }

  // The group is the longest prefix of the queue in which every follower may join.
  predicate IsGroup(queue: seq<Writer>, n: nat) {
    && 0 < n <= |queue|
    && (forall i :: 0 < i < n ==> Joins(queue, i))
    && (n < |queue| ==> !Joins(queue, n))
  }

  // Some follower brings data, so the leader's own batch cannot be used as it is.
  predicate NeedsTmpBatch(queue: seq<Writer>, n: nat)
    requires n <= |queue|
  {
    exists i :: 0 < i < n && queue[i].batch.Some?
  }

  /** Builds the batch of the group led by the front writer. `tmpBatch` is the engine's
      scratch batch: followers are appended to it, after a copy of the leader's batch. */
  method BuildBatchGroup(queue: seq<Writer>, tmpBatch: seq<Mutation>)
    returns (n: nat, result: seq<Mutation>, tmpBatch': seq<Mutation>)
    requires |queue| > 0 && queue[0].batch.Some?
    requires tmpBatch == []
    ensures IsGroup(queue, n)
    ensures result == Ops(queue[..n])
    ensures tmpBatch' == if NeedsTmpBatch(queue, n) then result else []
    ensures 0 < n <= |queue|
    ensures forall i :: 0 < i < n ==> (queue[i].sync ==> queue[0].sync)
    ensures forall i :: 0 < i < n && queue[i].batch.Some? ==>
              BatchBytes(queue[..n]) <= if queue[0].bytes <= 131072 then queue[0].bytes + 131072 else 1048576
    ensures n < |queue| ==>
              || (queue[n].sync && !queue[0].sync)
              || (queue[n].batch.Some?
                  && BatchBytes(queue[..n]) + queue[n].bytes
                     > if queue[0].bytes <= 131072 then queue[0].bytes + 131072 else 1048576)
  {
    hide Ops, BatchBytes;
    var first := queue[0];
    result := first.batch.value;
    tmpBatch' := tmpBatch;
    var usesTmp := false;
    var size := first.bytes;
    var maxSize := 0x10_0000;
    if size <= 0x2_0000 {
      maxSize := size + 0x2_0000;
    }
    n := 1;
    GroupSnoc(queue, 0);
    while n < |queue|
      invariant 0 < n <= |queue|
      invariant forall i :: 0 < i < n ==> Joins(queue, i)
      invariant size == BatchBytes(queue[..n])
      invariant result == Ops(queue[..n])
      invariant usesTmp <==> NeedsTmpBatch(queue, n)
      invariant tmpBatch' == if usesTmp then result else []
    {
      var w := queue[n];
      GroupSnoc(queue, n);
      if w.sync && !first.sync {
        break;
      }
      if w.batch.Some? {
        size := size + w.bytes;
        if size > maxSize {
          break;
        }
        if !usesTmp {
          usesTmp := true;
          tmpBatch' := tmpBatch' + first.batch.value;
          NoFollowerYet(queue, n);
        }
        tmpBatch' := tmpBatch' + w.batch.value;
        result := tmpBatch';
      }
      n := n + 1;
    }
    GroupWithin(queue, n);
    forall i | 0 < i < n ensures queue[i].sync ==> queue[0].sync { assert Joins(queue, i); }
    if n < |queue| { GroupSnoc(queue, n); }
  }

  // Once somebody has joined with a batch, the whole group is within the limit.
  lemma {:induction false} GroupWithin(queue: seq<Writer>, n: nat)
    requires 0 < n <= |queue| && forall i :: 0 < i < n ==> Joins(queue, i)
    ensures NeedsTmpBatch(queue, n) ==> BatchBytes(queue[..n]) <= MaxBytes(queue[0].bytes)
    decreases n
  {
    hide BatchBytes, MaxBytes;
    if n > 1 {
      GroupWithin(queue, n - 1);
      GroupSnoc(queue, n - 1);
      assert Joins(queue, n - 1);
    }
  }

  lemma {:induction false} GroupSnoc(queue: seq<Writer>, n: nat)
    requires n < |queue|
    ensures Ops(queue[..0]) == [] && BatchBytes(queue[..0]) == 0
    ensures Ops(queue[..n + 1]) == Ops(queue[..n]) + queue[n].Ops()
    ensures BatchBytes(queue[..n + 1]) == BatchBytes(queue[..n]) + if queue[n].batch.Some? then queue[n].bytes else 0
  {
    assert queue[..n + 1][..n] == queue[..n];
  }

  lemma {:induction false} NoFollowerYet(queue: seq<Writer>, n: nat)
    requires 0 < n <= |queue| && !NeedsTmpBatch(queue, n)
    ensures Ops(queue[..n]) == queue[0].Ops()
  {
    assert queue[..n][..n - 1] == queue[..n - 1];
    if n > 1 {
      assert queue[n - 1].batch.None?;
      NoFollowerYet(queue, n - 1);
    }
  }

  lemma {:induction false} OpsAppend(a: seq<Writer>, b: seq<Writer>)
    ensures Ops(a + b) == Ops(a) + Ops(b)
  {
    if b == [] {
      assert a + b == a;
    } else {
      var front := b[..|b| - 1];
      OpsAppend(a, front);
      assert (a + b)[..|a + b| - 1] == a + front;
    }
  }
}
