/** The contract of the rate-limited work queue of k8s.io/client-go/util/workqueue: each operation
    runs under the queue's lock and is one step here. */
module WorkQueue {
  import opened Keys

  datatype Queue = Queue(
    order: seq<Key>,
    dirty: set<Key>,
    processing: set<Key>,
    delayed: set<Key>,
    failures: map<Key, nat>,
    shuttingDown: bool)
  {
    /** Keys wait in order at most once, and a dirty key waits unless it is being processed. */
    ghost predicate Valid() {
      && (forall i, j | 0 <= i < j < |order| :: order[i] != order[j])
      && (forall i | 0 <= i < |order| :: order[i] in dirty && order[i] !in processing)
      && (forall k | k in dirty :: k in order || k in processing)
    }

    function Add(k: Key): Queue {
      if shuttingDown || k in dirty then this
      else if k in processing then this.(dirty := dirty + {k})
      else this.(dirty := dirty + {k}, order := order + [k])
    }

    function Get(): Queue
      requires order != []
    {
      this.(order := order[1..], processing := processing + {order[0]}, dirty := dirty - {order[0]})
    }

    function Done(k: Key): Queue {
      this.(processing := processing - {k}, order := if k in dirty then order + [k] else order)
    }

    /** The limiter counts the failure in any case; the key is dropped while shutting down. */
    function AddRateLimited(k: Key): Queue {
      var counted := failures[k := (if k in failures then failures[k] else 0) + 1];
      this.(failures := counted, delayed := if shuttingDown then delayed else delayed + {k})
    }

    /** A back-off delay is over. */
    function Expire(k: Key): Queue {
      this.(delayed := delayed - {k}).Add(k)
    }

    function Forget(k: Key): Queue {
      this.(failures := failures - {k})
    }

    function ShutDown(): Queue {
      this.(shuttingDown := true)
    }
  }

  const EMPTY := Queue([], {}, {}, {}, map[], false)

  lemma AddKeepsValid(q: Queue, k: Key)
    requires q.Valid()
    ensures q.Add(k).Valid()
  {
  }

  lemma GetKeepsValid(q: Queue)
    requires q.Valid() && q.order != []
    ensures q.Get().Valid()
    ensures
      var k, q' := q.order[0], q.Get();
      && k in q'.processing && k !in q'.order && k !in q'.dirty
      && (forall j | j != k :: (j in q'.order <==> j in q.order) && (j in q'.processing <==> j in q.processing))
  {
    var q' := q.Get();
    assert q.order == [q.order[0]] + q'.order;
    forall i | 0 <= i < |q'.order| ensures q'.order[i] in q'.dirty && q'.order[i] !in q'.processing {
      assert q'.order[i] == q.order[i + 1];
    }
    forall k | k in q'.dirty ensures k in q'.order || k in q'.processing {
      if k in q.order {
        var i :| 0 <= i < |q.order| && q.order[i] == k;
        assert q'.order[i - 1] == k;
      }
    }
  }

  lemma DoneKeepsValid(q: Queue, k: Key)
    requires q.Valid() && k in q.processing
    ensures q.Done(k).Valid()
  {
  }
}
