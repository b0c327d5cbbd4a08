/**
 * The shared ID counter of a session, as a value. Nodes, pins and links all draw
 * their IDs from it. `Step` is what one call of GetNextId (or GetNextLinkId) and one
 * call of LogRestoredId do to the counter; `Replay` runs a sequence of such calls.
 */
module IdAllocator {

  /** The counter after LogRestoredId(id): the least value that is at least `c` and above `id`. */
  function Restore(c: int, id: int): (r: int)
    ensures r >= c && r > id
    ensures r == c || r == id + 1
  {
    if id + 1 > c then id + 1 else c
  }

  /** One call on the counter: a fresh ID is drawn, or an ID read back from saved data is logged. */
  datatype CounterOp = Next | Restored(id: int)

  /** The counter after a sequence of calls, with the IDs the `Next` calls returned, in order. */
  datatype Tally = Tally(counter: int, issued: seq<int>)

  function Step(c: int, op: CounterOp): Tally
  {
    match op
    case Next => Tally(c + 1, [c])
    case Restored(id) => Tally(Restore(c, id), [])
  }

  /**
   * Replaying calls from counter `c`: IDs come out strictly increasing (so pairwise
   * distinct), none below the starting counter and all below the final counter, and
   * the counter never decreases.
   */
  function Replay(c: int, ops: seq<CounterOp>): (r: Tally)
    ensures r.counter >= c
    ensures forall k :: 0 <= k < |r.issued| ==> c <= r.issued[k] < r.counter
    ensures forall k, m :: 0 <= k < m < |r.issued| ==> r.issued[k] < r.issued[m]
    ensures |r.issued| <= |ops|
    decreases |ops|
  {
    if ops == [] then Tally(c, [])
    else
      var first := Step(c, ops[0]);
      var rest := Replay(first.counter, ops[1..]);
      Tally(rest.counter, first.issued + rest.issued)
  }

  /** Replaying two runs back to back is replaying the second from where the first left the counter. */
  lemma {:induction false} ReplayAppend(c: int, a: seq<CounterOp>, b: seq<CounterOp>)
    ensures Replay(c, a + b).counter == Replay(Replay(c, a).counter, b).counter
    ensures Replay(c, a + b).issued == Replay(c, a).issued + Replay(Replay(c, a).counter, b).issued
    decreases |a|
  {
    if a == [] {
      assert a + b == b;
    } else {
      assert (a + b)[0] == a[0];
      assert (a + b)[1..] == a[1..] + b;
      var first := Step(c, a[0]);
      ReplayAppend(first.counter, a[1..], b);
      assert first.issued + (Replay(first.counter, a[1..]).issued + Replay(Replay(c, a).counter, b).issued)
          == (first.issued + Replay(first.counter, a[1..]).issued) + Replay(Replay(c, a).counter, b).issued;
    }
  }

  /** After a run, the counter is above every ID that was logged as restored in it. */
  lemma {:induction false} ReplayExceedsRestored(c: int, ops: seq<CounterOp>)
    ensures forall k :: 0 <= k < |ops| && ops[k].Restored? ==> Replay(c, ops).counter > ops[k].id
    decreases |ops|
  {
    if ops != [] {
      var first := Step(c, ops[0]);
      ReplayExceedsRestored(first.counter, ops[1..]);
      forall k | 0 <= k < |ops| && ops[k].Restored?
        ensures Replay(c, ops).counter > ops[k].id
      {
        if k > 0 {
          assert ops[1..][k - 1] == ops[k];
        }
      }
    }
  }

  /**
   * No collision with restored IDs: every ID issued after a run `before` differs from
   * (in fact exceeds) every ID that `before` logged as restored.
   */
  lemma FreshAfterRestore(c: int, before: seq<CounterOp>, after: seq<CounterOp>, k: nat, m: nat)
    requires k < |before| && before[k].Restored?
    requires |Replay(c, before).issued| <= m < |Replay(c, before + after).issued|
    ensures Replay(c, before + after).issued[m] > before[k].id
  {
    ReplayAppend(c, before, after);
    ReplayExceedsRestored(c, before);
    var mid := Replay(c, before).counter;
    assert Replay(c, before + after).issued[m] == Replay(mid, after).issued[m - |Replay(c, before).issued|];
  }

  /** The calls LogRestoredId makes for the IDs read back by one load. */
  function Restorations(ids: seq<int>): (ops: seq<CounterOp>)
    ensures |ops| == |ids|
    ensures forall k :: 0 <= k < |ids| ==> ops[k] == Restored(ids[k])
  {
    seq(|ids|, k requires 0 <= k < |ids| => Restored(ids[k]))
  }

  /**
   * After logging the IDs of one load, the counter is at least where it was, above every
   * logged ID, and equal either to where it was or to one more than a logged ID: so it
   * depends only on the set of logged IDs.
   */
  lemma {:induction false} RestoredCounter(c: int, ids: seq<int>)
    ensures Replay(c, Restorations(ids)).issued == []
    ensures Replay(c, Restorations(ids)).counter >= c
    ensures forall x :: x in ids ==> Replay(c, Restorations(ids)).counter > x
    ensures Replay(c, Restorations(ids)).counter == c
         || exists x :: x in ids && Replay(c, Restorations(ids)).counter == x + 1
    decreases |ids|
  {
    if ids != [] {
      var ops := Restorations(ids);
      assert ops[0] == Restored(ids[0]);
      assert ops[1..] == Restorations(ids[1..]);
      var c1 := Restore(c, ids[0]);
      RestoredCounter(c1, ids[1..]);
      var r := Replay(c1, Restorations(ids[1..])).counter;
      assert Replay(c, ops).counter == r;
      forall x | x in ids ensures r > x {
        if x != ids[0] {
          assert x in ids[1..];
        }
      }
      if r != c1 {
        var x :| x in ids[1..] && r == x + 1;
        assert x in ids;
      } else if c1 != c {
        assert r == ids[0] + 1 && ids[0] in ids;
      }
    }
  }

  /**
   * LogRestoredId calls commute and repeat harmlessly: logging the same IDs in any order,
   * any number of times, leaves the same counter.
   */
  lemma RestoreOrderIndependent(c: int, ids1: seq<int>, ids2: seq<int>)
    requires forall x :: x in ids1 <==> x in ids2
    ensures Replay(c, Restorations(ids1)).counter == Replay(c, Restorations(ids2)).counter
  {
    RestoredCounter(c, ids1);
    RestoredCounter(c, ids2);
  }

  /** LogRestoredId(100) then LogRestoredId(50) from a fresh counter: the next ID is 101. */
  lemma RestoreScenario()
    ensures Replay(1, [Restored(100), Restored(50), Next]).issued == [101]
  {
    var ops := [Restored(100), Restored(50), Next];
    assert ops[1..] == [Restored(50), Next];
    assert ops[1..][1..] == [Next];
  }
}
