/** The nodes of an event queue and the lists they form: the queue itself between two
    dummy nodes, the free list, and the chain of allocated blocks. */
module QueueLists {

  /** What mClosure and mMsg hold: an opaque address, or a copy of a transport message. */
  datatype Payload = Closure(address: nat) | Msg(endpoint: string, bytes: seq<nat>)

  datatype Event = Event(mCb: nat, mData: nat, payload: Payload)

  class Item {
    var mCb: nat
    var mData: nat
    var payload: Payload
    var mNext: Item?
    var mPrev: Item?
    var mChunkNext: Item?

    constructor ()
      ensures mNext == null && mPrev == null && mChunkNext == null
    {
      mCb, mData, payload := 0, 0, Closure(0);
      mNext, mPrev, mChunkNext := null, null, null;
    }

    function Content(): Event
      reads this`mCb, this`mData, this`payload
    {
      Event(mCb, mData, payload)
    }
  }

  ghost predicate NoDuplicates(s: seq<Item>) {
    forall i, j | 0 <= i < j < |s| :: s[i] != s[j]
  }

  /** The items hold these events in this order. */
  ghost predicate Holds(items: seq<Item>, events: seq<Event>)
    reads items`mCb, items`mData, items`payload
  {
    |items| == |events| && forall i | 0 <= i < |items| :: items[i].Content() == events[i]
  }

  /** head, the items and tail are linked both ways in that order. */
  ghost predicate Linked(head: Item, items: seq<Item>, tail: Item)
    reads head`mNext, tail`mPrev, items`mNext, items`mPrev
  {
    && head.mNext == (if items == [] then tail else items[0])
    && tail.mPrev == (if items == [] then head else items[|items| - 1])
    && (items != [] ==> items[0].mPrev == head && items[|items| - 1].mNext == tail)
    && (forall i, j | 0 <= i < j < |items| && j == i + 1 :: items[i].mNext == items[j] && items[j].mPrev == items[i])
  }

  /** The chain of mNext from first is the items, and then null. */
  ghost predicate FreeChain(first: Item?, items: seq<Item>)
    reads items`mNext
  {
    && first == (if items == [] then null else items[0])
    && (items != [] ==> items[|items| - 1].mNext == null)
    && (forall i, j | 0 <= i < j < |items| && j == i + 1 :: items[i].mNext == items[j])
  }

  /** The chain of mChunkNext from first is the items, and then null. */
  ghost predicate BlockChain(first: Item?, items: seq<Item>)
    reads items`mChunkNext
  {
    && first == (if items == [] then null else items[0])
    && (items != [] ==> items[|items| - 1].mChunkNext == null)
    && (forall i, j | 0 <= i < j < |items| && j == i + 1 :: items[i].mChunkNext == items[j])
  }

  function SetOf(items: seq<Item>): set<Item> {
    set x | x in items
  }

  /** The chunks are the allocated blocks, newest first: each begins with its entry in
      `blocks`, none shares a node with another or repeats one, and together they are all
      the nodes there are. */
  ghost predicate Owned(nodes: set<Item>, blocks: seq<Item>, chunks: seq<seq<Item>>)
    decreases |chunks|
  {
    if chunks == [] then
      nodes == {} && blocks == []
    else
      && blocks != [] && chunks[0] != [] && chunks[0][0] == blocks[0] && NoDuplicates(chunks[0])
      && SetOf(chunks[0]) <= nodes && Owned(nodes - SetOf(chunks[0]), blocks[1..], chunks[1..])
  }

  lemma {:induction false} OwnedPrepend(nodes: set<Item>, blocks: seq<Item>, chunks: seq<seq<Item>>, block: seq<Item>)
    requires Owned(nodes, blocks, chunks) && block != [] && NoDuplicates(block) && SetOf(block) !! nodes
    ensures Owned(nodes + SetOf(block), [block[0]] + blocks, [block] + chunks)
  {
    assert nodes + SetOf(block) - SetOf(block) == nodes;
    assert ([block[0]] + blocks)[1..] == blocks && ([block] + chunks)[1..] == chunks;
  }

  /** x is in the chunk of the i-th block. */
  ghost predicate InChunk(x: Item, chunks: seq<seq<Item>>, i: int) {
    0 <= i < |chunks| && x in chunks[i]
  }

  /** What ownership means for one node: it is allocated if and only if it is in a chunk,
      and then in one chunk only. */
  lemma {:induction false} OwnedOnce(nodes: set<Item>, blocks: seq<Item>, chunks: seq<seq<Item>>, x: Item)
    requires Owned(nodes, blocks, chunks)
    ensures |chunks| == |blocks|
    ensures x in nodes <==> exists i :: InChunk(x, chunks, i)
    ensures forall i, j | InChunk(x, chunks, i) && InChunk(x, chunks, j) :: i == j
    decreases |chunks|
  {
    if chunks != [] {
      var rest := chunks[1..];
      OwnedOnce(nodes - SetOf(chunks[0]), blocks[1..], rest, x);
      forall i | InChunk(x, chunks, i)
        ensures i > 0 ==> InChunk(x, rest, i - 1)
        ensures x in nodes
      {
        if i > 0 {
          assert InChunk(x, rest, i - 1);
        } else {
          assert x in SetOf(chunks[0]);
        }
      }
      if x in nodes {
        if x in chunks[0] {
          assert InChunk(x, chunks, 0);
        } else {
          var i :| InChunk(x, rest, i);
          assert InChunk(x, chunks, i + 1);
        }
      }
    }
  }

  lemma {:induction false} OwnedHeads(nodes: set<Item>, blocks: seq<Item>, chunks: seq<seq<Item>>, i: nat)
    requires Owned(nodes, blocks, chunks) && i < |chunks|
    ensures |chunks| == |blocks| && chunks[i] != [] && chunks[i][0] == blocks[i] && NoDuplicates(chunks[i])
    decreases |chunks|
  {
    OwnedOnce(nodes, blocks, chunks, blocks[0]);
    if i > 0 {
      OwnedHeads(nodes - SetOf(chunks[0]), blocks[1..], chunks[1..], i - 1);
    }
  }

  /** No block is on the chain twice. */
  lemma {:induction false} OwnedBlocks(nodes: set<Item>, blocks: seq<Item>, chunks: seq<seq<Item>>)
    requires Owned(nodes, blocks, chunks)
    ensures NoDuplicates(blocks) && |chunks| == |blocks|
  {
    if blocks != [] {
      OwnedOnce(nodes, blocks, chunks, blocks[0]);
    }
    forall i, j | 0 <= i < j < |blocks|
      ensures blocks[i] != blocks[j]
    {
      OwnedHeads(nodes, blocks, chunks, i);
      OwnedHeads(nodes, blocks, chunks, j);
      OwnedOnce(nodes, blocks, chunks, blocks[i]);
      assert InChunk(blocks[i], chunks, i) && InChunk(blocks[j], chunks, j);
    }
  }

  /** The chunks are as before, or one of that size has come in front. */
  ghost predicate Extended(before: seq<seq<Item>>, after: seq<seq<Item>>, growth: int) {
    if growth == 0 then after == before else |after| == |before| + 1 && after[1..] == before && |after[0]| == growth
  }

  /** Every allocated node is queued, free or in hand, and is so once; the dummy
      nodes are none of these. */
  ghost predicate Partition(nodes: set<Item>, queued: seq<Item>, free: seq<Item>, hand: set<Item>, head: Item,
                            tail: Item)
  {
    && NoDuplicates(queued) && NoDuplicates(free)
    && (forall x | x in queued :: x in nodes && x !in free && x !in hand)
    && (forall x | x in free :: x in nodes && x !in hand)
    && (forall x | x in nodes :: x in queued || x in free || x in hand)
    && hand <= nodes
    && head !in nodes && tail !in nodes && head != tail
  }

  lemma {:induction false} PartitionPopFree(nodes: set<Item>, queued: seq<Item>, free: seq<Item>, head: Item,
                                            tail: Item)
    requires Partition(nodes, queued, free, {}, head, tail) && free != []
    ensures Partition(nodes, queued, free[1..], {free[0]}, head, tail)
  {
    assert free[0] in free;
  }

  lemma {:induction false} PartitionPushBack(nodes: set<Item>, queued: seq<Item>, free: seq<Item>, x: Item,
                                             head: Item, tail: Item)
    requires Partition(nodes, queued, free, {x}, head, tail)
    ensures Partition(nodes, queued + [x], free, {}, head, tail)
  {
    assert forall i | 0 <= i < |queued| :: queued[i] in queued && queued[i] != x;
  }

  lemma {:induction false} PartitionPopFront(nodes: set<Item>, queued: seq<Item>, free: seq<Item>, head: Item,
                                             tail: Item)
    requires Partition(nodes, queued, free, {}, head, tail) && queued != []
    ensures Partition(nodes, queued[1..], free, {queued[0]}, head, tail)
  {
    assert queued[0] in queued;
  }

  lemma {:induction false} PartitionPushFree(nodes: set<Item>, queued: seq<Item>, free: seq<Item>, x: Item,
                                             head: Item, tail: Item)
    requires Partition(nodes, queued, free, {x}, head, tail)
    ensures Partition(nodes, queued, [x] + free, {}, head, tail)
  {
    assert forall i | 0 <= i < |free| :: free[i] in free && free[i] != x;
  }

  lemma {:induction false} PartitionGrow(nodes: set<Item>, queued: seq<Item>, block: seq<Item>, head: Item, tail: Item)
    requires Partition(nodes, queued, [], {}, head, tail) && NoDuplicates(block)
    requires forall x | x in block :: x !in nodes && x != head && x != tail
    ensures Partition(nodes + SetOf(block), queued, block, {}, head, tail)
  {
  }

  method Fill(item: Item, e: Event)
    modifies item`mCb, item`mData, item`payload
    ensures item.Content() == e
  {
    item.mCb := e.mCb;
    item.mData := e.mData;
    item.payload := e.payload;
  }

  /** Puts item between tail and the node before it. */
  method InsertBefore(tail: Item, item: Item, ghost head: Item, ghost items: seq<Item>)
    requires Linked(head, items, tail) && NoDuplicates(items)
    requires head !in items && tail !in items && item !in items && item != head && item != tail && head != tail
    modifies item`mNext, item`mPrev, tail`mPrev, tail.mPrev`mNext
    ensures Linked(head, items + [item], tail)
  {
    item.mNext := tail;
    item.mPrev := tail.mPrev;
    item.mPrev.mNext := item;
    tail.mPrev := item;
  }

  ghost function Second(items: seq<Item>, tail: Item): Item {
    if |items| > 1 then items[1] else tail
  }

  /** Takes the first item out of the list. */
  method Unlink(ele: Item, ghost head: Item, ghost items: seq<Item>, ghost tail: Item)
    requires Linked(head, items, tail) && NoDuplicates(items) && items != [] && ele == items[0]
    requires head !in items && tail !in items && head != tail
    modifies head`mNext, Second(items, tail)`mPrev
    ensures Linked(head, items[1..], tail)
  {
    assert |items| > 1 ==> ele.mNext == items[1];
    ele.mPrev.mNext := ele.mNext;
    ele.mNext.mPrev := ele.mPrev;
  }

  lemma {:induction false} FreePop(first: Item, items: seq<Item>)
    requires FreeChain(first, items)
    ensures FreeChain(first.mNext, items[1..])
  {
  }

  lemma {:induction false} FreePrepend(x: Item, items: seq<Item>)
    requires FreeChain(x.mNext, items)
    ensures FreeChain(x, [x] + items)
  {
  }

  lemma {:induction false} BlockPrepend(x: Item, items: seq<Item>)
    requires BlockChain(x.mChunkNext, items)
    ensures BlockChain(x, [x] + items)
  {
  }

  /** A block of new nodes, chained as a free list, with the older blocks behind it. */
  method NewBlock(items: nat, chunks: Item?) returns (block: seq<Item>)
    requires items > 0
    ensures |block| == items && NoDuplicates(block) && fresh(block)
    ensures FreeChain(block[0], block) && block[0].mChunkNext == chunks
  {
    block := [];
    while |block| < items
      invariant |block| <= items && NoDuplicates(block) && fresh(block)
      invariant forall x | x in block :: x.mNext == null
    {
      var x := new Item();
      block := block + [x];
    }
    block[0].mChunkNext := chunks;
    var i := 0;
    while i < items - 1
      invariant 0 <= i <= items - 1
      invariant forall k | 0 <= k < i :: block[k].mNext == block[k + 1]
      invariant forall k | i <= k < items :: block[k].mNext == null
      invariant block[0].mChunkNext == chunks
    {
      block[i].mNext := block[i + 1];
      block[i + 1].mPrev := block[i];
      i := i + 1;
    }
  }
}
