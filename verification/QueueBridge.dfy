/** The queue bridge over one event queue, as its dispatching thread sees it while no
    other thread interferes; interference is the subject of UQueueRuns, Watermarks and
    WatermarkRaces. */
module QueueBridge {
  import opened Common
  import opened QueueLists
  import opened UQueue
  import opened Watermarks
  import opened QueueRounds

  class Bridge {
    const mQueue: UQueueImpl
    var mIsActive: bool
    var mHighWaterFired: bool
    var mHighWatermark: nat
    var mLowWatermark: nat

    constructor (queue: UQueueImpl)
      ensures mQueue == queue && mIsActive && !mHighWaterFired && mHighWatermark == 0 && mLowWatermark == 0
    {
      mQueue := queue;
      mIsActive, mHighWaterFired, mHighWatermark, mLowWatermark := true, false, 0, 0;
    }

    /** enqueueMsg and enqueueEventEx: an inactive queue silently drops the event. */
    method EnqueueMsg(e: Event, memOk: bool) returns (ok: bool)
      requires mQueue.Valid()
      modifies mQueue, mQueue.mHead, mQueue.mTail, mQueue.shape.nodes
      ensures mQueue.Valid() && fresh(mQueue.shape.nodes - old(mQueue.shape.nodes))
      ensures mIsActive ==> (mQueue.View(), if ok then Ok else Full) == Enqueued(old(mQueue.View()), e, memOk)
      ensures !mIsActive ==> ok && mQueue.View() == old(mQueue.View())
    {
      ok := true;
      if mIsActive {
        var status := mQueue.Enqueue(e, memOk);
        ok := status == Ok;
      }
    }

    /** checkWatermarks, with the notification it gives. */
    method CheckWatermarks() returns (notes: seq<Note>)
      modifies this`mHighWaterFired
      ensures (mHighWaterFired, notes) == Checked(old(mHighWaterFired), mLowWatermark, mHighWatermark, mQueue.mSem)
      ensures !old(mHighWaterFired) ==> (mHighWaterFired <==> mQueue.mSem >= mHighWatermark)
      ensures old(mHighWaterFired) ==> (mHighWaterFired <==> mQueue.mSem != mLowWatermark)
      ensures notes == if mHighWaterFired == old(mHighWaterFired) then [] else if mHighWaterFired then [High] else [Low]
    {
      var eventCount := mQueue.mSem;
      notes := [];
      if mHighWaterFired && eventCount == mLowWatermark {
        mHighWaterFired := false;
        notes := [Low];
      } else if !mHighWaterFired && eventCount >= mHighWatermark {
        mHighWaterFired := true;
        notes := [High];
      }
    }

    /** timedDispatch: the event handed to its callback, or a timeout. */
    method TimedDispatch() returns (e: Option<Event>)
      requires mQueue.Valid() && mQueue.mSem == |mQueue.shape.contents|
      modifies mQueue, mQueue.mHead, mQueue.mTail, mQueue.shape.nodes
      ensures mQueue.Valid() && mQueue.mSem == |mQueue.shape.contents| && mQueue.shape.nodes == old(mQueue.shape.nodes)
      ensures match e {
                case None => old(mQueue.shape.contents) == [] && mQueue.shape.contents == []
                case Some(x) => old(mQueue.shape.contents) == [x] + mQueue.shape.contents
              }
    {
      var ok := mQueue.SemWait();
      if !ok {
        return None;
      }
      e := mQueue.Take();
    }

    /** The queue is where the loop is. */
    ghost predicate IsAt(l: Loop)
      reads this, mQueue
    {
      mQueue.shape.contents == l.rest && mHighWaterFired == l.fired
    }

    /** One round of the dispatch loop. */
    method Round(handed: seq<Event>, notes: seq<Note>) returns (handed': seq<Event>, notes': seq<Note>)
      requires mQueue.Valid() && mQueue.mSem == |mQueue.shape.contents|
      modifies this`mHighWaterFired, mQueue, mQueue.mHead, mQueue.mTail, mQueue.shape.nodes
      ensures mQueue.Valid() && mQueue.mSem == |mQueue.shape.contents| && mQueue.shape.nodes == old(mQueue.shape.nodes)
      ensures var l := Rounded(Loop(old(mQueue.shape.contents), old(mHighWaterFired), handed, notes),
                               old(mLowWatermark), old(mHighWatermark));
              IsAt(l) && handed' == l.handed && notes' == l.notes
      ensures unchanged(`mLowWatermark, `mHighWatermark)
    {
      var more := CheckWatermarks();
      var e := TimedDispatch();
      handed', notes' := handed, notes + more;
      if e.Some? {
        handed' := handed + [e.value];
      }
    }

    /** The loop, round by round. */
    method Rounds(further: nat) returns (handed: seq<Event>, notes: seq<Note>)
      requires mQueue.Valid() && mQueue.mSem == |mQueue.shape.contents|
      modifies this`mHighWaterFired, mQueue, mQueue.mHead, mQueue.mTail, mQueue.shape.nodes
      ensures mQueue.Valid() && mQueue.mSem == |mQueue.shape.contents|
      ensures var l := After(old(mQueue.shape.contents), old(mHighWaterFired),
                             old(mLowWatermark), old(mHighWatermark), further + 1);
              IsAt(l) && handed == l.handed && notes == l.notes
    {
      handed, notes := [], [];
      var rounds := 0;
      ghost var contents, fired, low, high := mQueue.shape.contents, mHighWaterFired, mLowWatermark, mHighWatermark;
      ghost var l := After(contents, fired, low, high, 0);
      while rounds <= further
        invariant rounds <= further + 1 && mLowWatermark == low && mHighWatermark == high
        invariant mQueue.Valid() && mQueue.mSem == |mQueue.shape.contents|
        invariant mQueue.shape.nodes == old(mQueue.shape.nodes)
        invariant l == After(contents, fired, low, high, rounds)
        invariant IsAt(l) && handed == l.handed && notes == l.notes
      {
        handed, notes := Round(handed, notes);
        l := Rounded(l, low, high);
        rounds := rounds + 1;
      }
    }

    /** The dispatch loop until stopDispatch takes effect, after the given number of
        further rounds: what is handed over is the oldest events, in order, and what is
        notified is what the falling size of the queue calls for. */
    method Dispatch(further: nat) returns (handed: seq<Event>, notes: seq<Note>)
      requires mQueue.Valid() && mQueue.mSem == |mQueue.shape.contents|
      modifies this`mHighWaterFired, mQueue, mQueue.mHead, mQueue.mTail, mQueue.shape.nodes
      ensures mQueue.Valid() && mQueue.mSem == |mQueue.shape.contents|
      ensures handed == Handed(old(mQueue.shape.contents), further + 1)
      ensures handed + mQueue.shape.contents == old(mQueue.shape.contents)
      ensures |handed| == if further < |old(mQueue.shape.contents)| then further + 1 else |old(mQueue.shape.contents)|
      ensures (mHighWaterFired, notes)
              == old(Notified(mHighWaterFired, mLowWatermark, mHighWatermark, |mQueue.shape.contents|, further + 1))
      ensures !old(mHighWaterFired) && old(mHighWatermark) <= old(|mQueue.shape.contents|) ==>
                notes != [] && notes[0] == High
    {
      AllAfter(mQueue.shape.contents, mHighWaterFired, mLowWatermark, mHighWatermark, further + 1);
      handed, notes := Rounds(further);
    }
  }
}
