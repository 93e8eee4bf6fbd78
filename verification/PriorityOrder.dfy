/** Priority tiers and the ordering of queued envelopes, src/queue/priority.rs. */
module PriorityOrder {
  import opened Settlement

  datatype TxPriority = Low | Normal | Emergency
  {
    function ToInt(): int {
      match this case Low => 0 case Normal => 1 case Emergency => 2
    }
  }

  datatype Envelope = Envelope(messageId: Id, txXdr: string)

  datatype QueuedTx = QueuedTx(priority: TxPriority, enqueuedAt: nat, envelope: Envelope)
  {
    /** `Ord for QueuedTx`, as self <= other: the larger one leaves the max-heap first. */
    predicate AtMost(other: QueuedTx) {
      priority.ToInt() < other.priority.ToInt() ||
      (priority == other.priority && other.enqueuedAt <= enqueuedAt)
    }
  }

  lemma AtMostIsTotalPreorder(a: QueuedTx, b: QueuedTx, c: QueuedTx)
    ensures a.AtMost(b) || b.AtMost(a)
    ensures a.AtMost(b) && b.AtMost(c) ==> a.AtMost(c)
  {
  }

  /** What `BinaryHeap::peek` shows: some element that no other one exceeds. */
  predicate IsTop(heap: multiset<QueuedTx>, top: QueuedTx) {
    top in heap && forall q :: q in heap ==> q.AtMost(top)
  }

  lemma {:induction false} TopExists(heap: multiset<QueuedTx>)
    requires heap != multiset{}
    ensures exists top :: IsTop(heap, top)
    decreases |heap|
  {
    var q :| q in heap;
    var rest := heap - multiset{q};
    if rest == multiset{} {
      assert forall p :: p in heap ==> p == q || p in rest;
      assert IsTop(heap, q);
    } else {
      TopExists(rest);
      var t :| IsTop(rest, t);
      assert forall p :: p in heap ==> p == q || p in rest;
      assert IsTop(heap, if q.AtMost(t) then t else q);
    }
  }

  /** What a top means: no higher tier is present, and within its tier nothing was enqueued earlier. */
  ghost predicate GoesFirst(heap: multiset<QueuedTx>, top: QueuedTx) {
    top in heap &&
    (top.priority == Low ==> forall q :: q in heap ==> q.priority != Normal && q.priority != Emergency) &&
    (top.priority == Normal ==> forall q :: q in heap ==> q.priority != Emergency) &&
    forall q :: q in heap && q.priority == top.priority ==> top.enqueuedAt <= q.enqueuedAt
  }

  lemma TopGoesFirst(heap: multiset<QueuedTx>, top: QueuedTx)
    ensures IsTop(heap, top) <==> GoesFirst(heap, top)
  {
  }
}
