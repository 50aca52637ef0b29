/** The unbounded event queue: a doubly linked list between two dummy nodes, a
    LIFO free list, and nodes allocated in blocks that are chained for release.
    Each method is one critical section or one semaphore operation, so any
    interleaving of threads is a sequence of method calls (see UQueueRuns). */
module UQueue {
  import opened Common
  import opened QueueLists

  datatype Status = Ok | Full | NoMem | Timeout

  const UINT32 := 0x1_0000_0000

  type Positive = n: nat | n > 0 witness 1

  /** The abstract queue: what is queued, how many nodes exist, the semaphore. */
  datatype State = State(contents: seq<Event>, capacity: nat, sem: nat, maxSize: nat, chunkSize: nat)

  /** allocChunk's test: size + items is computed in 32 bits. */
  predicate Refused(sem: nat, items: nat, maxSize: nat) {
    (sem + items) % UINT32 > maxSize
  }

  predicate NoFreeNode(q: State) {
    q.capacity <= |q.contents|
  }

  /** There is no free node and no way to get one. */
  predicate Blocked(q: State, memOk: bool) {
    NoFreeNode(q) && (Refused(q.sem, q.chunkSize, q.maxSize) || !memOk)
  }

  function Grown(q: State): State {
    if NoFreeNode(q) then q.(capacity := q.capacity + q.chunkSize) else q
  }

  function Pushed(q: State, e: Event): State {
    q.(contents := q.contents + [e], sem := q.sem + 1)
  }

  /** An enqueue grows the queue only when no node is free, and fails only when it
      then may not or cannot grow. */
  function Enqueued(q: State, e: Event, memOk: bool): (State, Status) {
    if Blocked(q, memOk) then (q, Full) else (Pushed(Grown(q), e), Ok)
  }

  function Taken(q: State): (State, Option<Event>) {
    if q.contents == [] then (q, None) else (q.(contents := q.contents[1..]), Some(q.contents[0]))
  }

  /** What the fields and links of a queue stand for: what is queued, oldest first, and
      the nodes that hold it; the free list; the first node of each allocated block and the
      nodes of each, newest first; and all allocated nodes. */
  datatype Shape = Shape(
    contents: seq<Event>, queued: seq<Item>, free: seq<Item>,
    blocks: seq<Item>, chunks: seq<seq<Item>>, nodes: set<Item>)

  /** One more block, all of it free. */
  ghost function WithBlock(s: Shape, block: seq<Item>): Shape
    requires block != []
  {
    s.(free := block, nodes := s.nodes + SetOf(block), blocks := [block[0]] + s.blocks, chunks := [block] + s.chunks)
  }

  /** The first free node has moved to the end of the queue. */
  ghost function Stored(s: Shape, item: Item, e: Event): Shape
    requires s.free != []
  {
    s.(free := s.free[1..], queued := s.queued + [item], contents := s.contents + [e])
  }

  ghost function Viewed(s: Shape, sem: nat, maxSize: nat, chunkSize: nat): State {
    State(s.contents, |s.queued| + |s.free|, sem, maxSize, chunkSize)
  }

  lemma {:induction false} StoredView(s: Shape, item: Item, e: Event, sem: nat, maxSize: nat, chunkSize: nat)
    requires s.free != []
    ensures Viewed(Stored(s, item, e), sem + 1, maxSize, chunkSize) == Pushed(Viewed(s, sem, maxSize, chunkSize), e)
  {
  }

  class UQueueImpl {
    var mSem: nat
    var mMaxSize: nat
    var mChunkSize: nat
    var mCurrSize: int
    const defaultChunkSize: Positive
    const mHead: Item
    const mTail: Item
    var mFirstFree: Item?
    var mChunks: Item?

    ghost var shape: Shape

    ghost predicate Valid()
      reads this, mHead, mTail, shape.nodes, shape.queued, shape.free, shape.blocks
    {
      ValidExcept({})
    }

    /** Valid, with the nodes in hand taken out of one list and not yet in the other. */
    ghost predicate ValidExcept(hand: set<Item>)
      reads this, mHead, mTail, shape.nodes, shape.queued, shape.free, shape.blocks
    {
      && Linked(mHead, shape.queued, mTail) && Holds(shape.queued, shape.contents) && mCurrSize == |shape.queued|
      && FreeChain(mFirstFree, shape.free)
      && BlockChain(mChunks, shape.blocks) && Owned(shape.nodes, shape.blocks, shape.chunks)
      && Partition(shape.nodes, shape.queued, shape.free, hand, mHead, mTail) && mChunkSize > 0
    }

    ghost function View(): State
      reads this
    {
      Viewed(shape, mSem, mMaxSize, mChunkSize)
    }

    /** uQueue_allocate, with the default sizes of OpenMAMA's header. */
    constructor (maxSize: nat, chunkSize: Positive)
      ensures Valid() && fresh(shape.nodes) && fresh(mHead) && fresh(mTail)
      ensures View() == State([], 0, 0, maxSize, chunkSize) && shape.chunks == [] && defaultChunkSize == chunkSize
    {
      defaultChunkSize := chunkSize;
      mHead := new Item();
      mTail := new Item();
      mSem, mMaxSize, mChunkSize, mCurrSize := 0, maxSize, chunkSize, 0;
      mFirstFree, mChunks := null, null;
      shape := Shape([], [], [], [], [], {});
      new;
      mHead.mNext, mHead.mPrev := mTail, mHead;
      mTail.mPrev, mTail.mNext := mHead, mTail;
    }

    /** uQueueImpl_allocChunk. It drops whatever mFirstFree points to, so its callers
        come here only with an empty free list. */
    method AllocChunk(items: nat, memOk: bool) returns (status: Status)
      requires Valid() && shape.free == [] && items > 0
      modifies this`mChunks, this`mFirstFree, this`shape
      ensures Valid()
      ensures status == if Refused(mSem, items, mMaxSize) then Full else if !memOk then NoMem else Ok
      ensures status.Ok? ==> |shape.free| == items && shape == WithBlock(old(shape), shape.free) && fresh(shape.free)
      ensures !status.Ok? ==> shape == old(shape)
    {
      if (mSem + items) % UINT32 > mMaxSize {
        return Full;
      }
      if !memOk {
        return NoMem;
      }
      Grow(items);
      return Ok;
    }

    method Grow(items: nat)
      requires Valid() && shape.free == [] && items > 0
      modifies this`mChunks, this`mFirstFree, this`shape
      ensures Valid() && |shape.free| == items && shape == WithBlock(old(shape), shape.free) && fresh(shape.free)
    {
      var block := NewBlock(items, mChunks);
      AddBlock(block);
    }

    method AddBlock(block: seq<Item>)
      requires Valid() && shape.free == [] && block != []
      requires FreeChain(block[0], block) && NoDuplicates(block) && block[0].mChunkNext == mChunks
      requires forall x | x in block :: x !in shape.nodes && x != mHead && x != mTail
      modifies this`mChunks, this`mFirstFree, this`shape
      ensures Valid() && shape == WithBlock(old(shape), block)
    {
      BlockPrepend(block[0], shape.blocks);
      OwnedPrepend(shape.nodes, shape.blocks, shape.chunks, block);
      PartitionGrow(shape.nodes, shape.queued, block, mHead, mTail);
      shape := WithBlock(shape, block);
      mChunks, mFirstFree := block[0], block[0];
    }

    /** uQueue_create: the sizes, where a zero stands for the default, and the first
        block. */
    method Create(maxSize: nat, initialSize: nat, growBySize: nat, memOk: bool) returns (status: Status)
      requires Valid() && shape.free == [] && shape.queued == [] && shape.chunks == []
      modifies this
      ensures Valid() && shape.queued == [] && fresh(shape.nodes - old(shape.nodes))
      ensures mMaxSize == (if maxSize == 0 then old(mMaxSize) else maxSize)
      ensures mChunkSize == (if growBySize == 0 then old(mChunkSize) else growBySize)
      ensures var size := if initialSize == 0 then defaultChunkSize else initialSize;
              && status == (if Refused(mSem, size, mMaxSize) || !memOk then NoMem else Ok)
              && View() == State(old(shape.contents), if status.Ok? then size else 0, old(mSem), mMaxSize, mChunkSize)
              && Extended([], shape.chunks, if status.Ok? then size else 0)
    {
      if maxSize != 0 {
        mMaxSize := maxSize;
      }
      if growBySize != 0 {
        mChunkSize := growBySize;
      }
      var allocation := AllocChunk(if initialSize == 0 then defaultChunkSize else initialSize, memOk);
      if mFirstFree == null {
        return NoMem;
      }
      mCurrSize := 0;
      return Ok;
    }

    /** uQueue_enqueue, from taking the lock to releasing it. */
    method Enqueue(e: Event, memOk: bool) returns (status: Status)
      requires Valid()
      modifies this, mHead, mTail, shape.nodes
      ensures Valid() && fresh(shape.nodes - old(shape.nodes))
      ensures (View(), status) == Enqueued(old(View()), e, memOk)
      ensures Extended(old(shape.chunks), shape.chunks, View().capacity - old(View()).capacity)
    {
      var item := Reserve(memOk);
      if item == null {
        return Full;
      }
      StoredView(shape, item, e, mSem, mMaxSize, mChunkSize);
      ghost var grown := View();
      assert grown == Grown(old(View())) && !Blocked(old(View()), memOk);
      Store(item, e);
      assert View() == Pushed(grown, e);
      return Ok;
    }

    /** Moves the first free node to the end of the queue, filled. */
    method Store(item: Item, e: Event)
      requires Valid() && mFirstFree == item
      modifies this`mFirstFree, this`shape, this`mCurrSize, this`mSem, mHead, mTail, shape.nodes
      ensures Valid() && mSem == old(mSem) + 1 && old(shape.free) != [] && shape == Stored(old(shape), item, e)
    {
      PopFree(item);
      FillHand(item, e);
      LastIsOwn();
      PushBack(item, e);
    }

    /** The node before the dummy tail node is the dummy head node or an allocated one. */
    lemma {:induction false} LastIsOwn()
      requires Linked(mHead, shape.queued, mTail) && forall x | x in shape.queued :: x in shape.nodes
      ensures mTail.mPrev == mHead || mTail.mPrev in shape.nodes
    {
    }

    /** Fills a node that is in no list. */
    method FillHand(item: Item, e: Event)
      requires ValidExcept({item})
      modifies item`mCb, item`mData, item`payload
      ensures ValidExcept({item}) && item.Content() == e
    {
      assert item !in shape.queued;
      Fill(item, e);
    }

    /** The first free node, after growing if there was none. */
    method Reserve(memOk: bool) returns (item: Item?)
      requires Valid()
      modifies this`mChunks, this`mFirstFree, this`shape
      ensures Valid() && fresh(shape.nodes - old(shape.nodes)) && item == mFirstFree
      ensures item != null ==> shape.free != []
      ensures item == null <==> Blocked(old(View()), memOk)
      ensures View() == if item == null then old(View()) else Grown(old(View()))
      ensures Extended(old(shape.chunks), shape.chunks, View().capacity - old(View()).capacity)
    {
      assert |shape.contents| == |shape.queued|;
      if mFirstFree == null {
        var allocation := AllocChunk(mChunkSize, memOk);
      }
      return mFirstFree;
    }

    method PopFree(item: Item)
      requires Valid() && mFirstFree == item
      modifies this`mFirstFree, this`shape
      ensures ValidExcept({item}) && old(shape).free != [] && shape == old(shape).(free := old(shape.free)[1..])
    {
      PartitionPopFree(shape.nodes, shape.queued, shape.free, mHead, mTail);
      FreePop(item, shape.free);
      mFirstFree := item.mNext;
      shape := shape.(free := shape.free[1..]);
    }

    /** Puts the item before the dummy tail node, posts and counts. */
    method PushBack(item: Item, ghost e: Event)
      requires ValidExcept({item}) && item.Content() == e
      modifies this`mCurrSize, this`mSem, this`shape
      modifies item`mNext, item`mPrev, mTail`mPrev, mTail.mPrev`mNext
      ensures Valid() && mSem == old(mSem) + 1
      ensures shape == old(shape).(queued := old(shape.queued) + [item], contents := old(shape.contents) + [e])
    {
      LinkLast(item, e);
      PartitionPushBack(shape.nodes, shape.queued, shape.free, item, mHead, mTail);
      shape := shape.(queued := shape.queued + [item], contents := shape.contents + [e]);
      mCurrSize, mSem := mCurrSize + 1, mSem + 1;
    }

    /** The links alone; the other lists are not touched. */
    method LinkLast(item: Item, ghost e: Event)
      requires ValidExcept({item}) && item.Content() == e
      modifies item`mNext, item`mPrev, mTail`mPrev, mTail.mPrev`mNext
      ensures Linked(mHead, shape.queued + [item], mTail) && Holds(shape.queued + [item], shape.contents + [e])
      ensures FreeChain(mFirstFree, shape.free) && BlockChain(mChunks, shape.blocks)
    {
      assert item !in shape.queued && item !in shape.free && mTail.mPrev !in shape.free;
      InsertBefore(mTail, item, mHead, shape.queued);
    }

    /** wsem_wait or wsem_timedwait: false is a timeout. */
    method SemWait() returns (ok: bool)
      requires Valid()
      modifies this`mSem
      ensures Valid()
      ensures ok <==> old(mSem) > 0
      ensures View() == old(View()).(sem := if ok then old(mSem) - 1 else 0)
    {
      if mSem == 0 {
        return false;
      }
      mSem := mSem - 1;
      return true;
    }

    /** The rest of uQueue_dispatchInt, from taking the lock to releasing it: what
        comes back is what the callback is invoked with. */
    method Take() returns (e: Option<Event>)
      requires Valid()
      modifies this, mHead, mTail, shape.nodes
      ensures Valid() && shape.nodes == old(shape.nodes) && shape.chunks == old(shape.chunks)
      ensures (View(), e) == Taken(old(View()))
    {
      var head := mHead.mNext;
      if head == mTail {
        return None;
      }
      // UQ_REMOVE
      PopFront(head);
      PushFree(head);
      return Some(Event(head.mCb, head.mData, head.payload));
    }

    method PopFront(item: Item)
      requires Valid() && shape.queued != [] && item == shape.queued[0]
      modifies this`mCurrSize, this`shape, mHead`mNext, Second(shape.queued, mTail)`mPrev
      ensures ValidExcept({item}) && old(shape.contents) != [] && item.Content() == old(shape.contents)[0]
      ensures shape == old(shape).(queued := old(shape.queued)[1..], contents := old(shape.contents)[1..])
    {
      PartitionPopFront(shape.nodes, shape.queued, shape.free, mHead, mTail);
      ghost var items := shape.queued;
      shape := shape.(queued := shape.queued[1..], contents := shape.contents[1..]);
      mCurrSize := mCurrSize - 1;
      Unlink(item, mHead, items, mTail);
    }

    method PushFree(item: Item)
      requires ValidExcept({item})
      modifies this`mFirstFree, this`shape, item`mNext
      ensures Valid() && shape == old(shape).(free := [item] + old(shape.free))
    {
      PartitionPushFree(shape.nodes, shape.queued, shape.free, item, mHead, mTail);
      item.mNext := mFirstFree;
      FreePrepend(item, shape.free);
      mFirstFree := item;
      shape := shape.(free := [item] + shape.free);
    }

    /** uQueue_destroy's loop: walks the chain of blocks and frees each one. Each node
        that was ever allocated is in the chunk of exactly one block freed. */
    method Destroy() returns (freed: seq<Item>)
      requires Valid()
      ensures NoDuplicates(freed) && |freed| == |shape.chunks|
      ensures forall i | 0 <= i < |freed| :: shape.chunks[i] != [] && shape.chunks[i][0] == freed[i]
      ensures forall x :: x in shape.nodes <==> exists i :: InChunk(x, shape.chunks, i)
      ensures forall x: Item, i, j | InChunk(x, shape.chunks, i) && InChunk(x, shape.chunks, j) :: i == j
    {
      freed := [];
      var curItem := mChunks;
      while curItem != null
        invariant |freed| <= |shape.blocks| && freed == shape.blocks[..|freed|]
        invariant curItem == if |freed| < |shape.blocks| then shape.blocks[|freed|] else null
        decreases |shape.blocks| - |freed|
      {
        var tmp := curItem.mChunkNext;
        freed := freed + [curItem];
        curItem := tmp;
      }
      OwnedBlocks(shape.nodes, shape.blocks, shape.chunks);
      forall i | 0 <= i < |freed|
        ensures shape.chunks[i] != [] && shape.chunks[i][0] == freed[i]
      {
        OwnedHeads(shape.nodes, shape.blocks, shape.chunks, i);
      }
      forall x: Item
        ensures x in shape.nodes <==> exists i :: InChunk(x, shape.chunks, i)
      {
        OwnedOnce(shape.nodes, shape.blocks, shape.chunks, x);
      }
      forall x: Item, i, j | InChunk(x, shape.chunks, i) && InChunk(x, shape.chunks, j)
        ensures i == j
      {
        OwnedOnce(shape.nodes, shape.blocks, shape.chunks, x);
      }
    }
  }
}
