/** The byte buffer of src/buffer.cc: a queue of bytes kept in a block of the thread's pool until it
    outgrows it, and in a heap array from then on. */
module Buffers {

  type Byte = b: int | 0 <= b < 256

  const PREPEND: nat := 8
  const POOL_BLOCK: nat := 16 * 1024
  const EXTRA: nat := 65536

  /** The pool of one thread. backing records, for every array that holds the bytes of a live buffer
      of the thread, which buffer that is. */
  class BufferPool {
    const blockSize: nat
    var free: seq<array<Byte>>
    ghost var backing: map<array<Byte>, Buffer>

    /** Free blocks are whole blocks, none is free twice, and none backs a live buffer. */
    ghost predicate Valid()
      reads this
    {
      && (forall i :: 0 <= i < |free| ==> free[i].Length == PREPEND + blockSize && free[i] !in backing)
      && (forall i, j :: 0 <= i < j < |free| ==> free[i] != free[j])
    }

    constructor (blockSize: nat, poolCount: nat)
      ensures Valid() && this.blockSize == blockSize && |free| == poolCount && backing == map[]
    {
      this.blockSize := blockSize;
      free := [];
      backing := map[];
      new;
      for i := 0 to poolCount
        invariant Valid() && |free| == i && backing == map[] && fresh(this)
        invariant forall j :: 0 <= j < i ==> fresh(free[j])
      {
        var block := new Byte[PREPEND + blockSize];
        free := free + [block];
      }
    }

    method Acquire(ghost who: Buffer) returns (raw: array<Byte>)
      requires Valid()
      modifies this
      ensures Valid() && raw.Length == PREPEND + blockSize
      ensures raw !in old(backing) && backing == old(backing)[raw := who]
      ensures if old(free) == [] then free == [] && fresh(raw) else old(free) == free + [raw]
    {
      if |free| > 0 {
        raw := free[|free| - 1];
        free := free[..|free| - 1];
      } else {
        raw := new Byte[PREPEND + blockSize];
      }
      backing := backing[raw := who];
    }

    method Release(p: array<Byte>)
      requires Valid() && p in backing && p.Length == PREPEND + blockSize
      modifies this
      ensures Valid() && free == old(free) + [p] && backing == old(backing) - {p}
    {
      free := free + [p];
      backing := backing - {p};
    }
  }

  /** Every live buffer of the pool's thread other than me keeps its bytes. */
  twostate predicate OthersKeepBytes(pool: BufferPool, new me: Buffer)
    reads *
  {
    forall a :: a in old(pool.backing) ==>
      var b := old(pool.backing[a]);
      b != me && b.pool == pool && old(b.Valid()) ==> b.Valid() && old(b.Contents()) == b.Contents()
  }

  /** memmove within one array. */
  method MoveBytes(a: array<Byte>, from: nat, to: nat, n: nat)
    requires from + n <= a.Length && to + n <= a.Length
    modifies a
    ensures a[to..to + n] == old(a[from..from + n])
  {
    forall i | 0 <= i < n {
      a[to + i] := a[from + i];
    }
  }

  /** memcpy of data to position at; what lies between from and there is followed by it. */
  method PutBytes(a: array<Byte>, ghost from: nat, at: nat, data: seq<Byte>)
    requires from <= at && at + |data| <= a.Length
    modifies a
    ensures a[from..at + |data|] == old(a[from..at]) + data
  {
    ghost var before := a[from..at];
    forall i | 0 <= i < |data| {
      a[at + i] := data[i];
    }
    forall i | 0 <= i < |before + data| ensures a[from + i] == (before + data)[i] {}
  }

  class Buffer {
    const pool: BufferPool
    var poolPtr: array?<Byte>
    var poolCapacity: nat
    var heapBuf: array<Byte>
    var readerIndex: nat
    var writerIndex: nat

    function Storage(): array<Byte>
      reads this
    {
      if poolPtr != null then poolPtr else heapBuf
    }

    ghost predicate Valid()
      reads this, pool
    {
      && pool.Valid()
      && Storage() in pool.backing && pool.backing[Storage()] == this
      && (poolPtr != null ==> poolPtr.Length == poolCapacity == PREPEND + pool.blockSize)
      && PREPEND <= readerIndex <= writerIndex <= Storage().Length
    }

    /** The unread bytes, oldest first. */
    ghost function Contents(): seq<Byte>
      requires Valid()
      reads this, pool, Storage()
    {
      Storage()[readerIndex..writerIndex]
    }

    constructor (pool: BufferPool, initial: nat)
      requires pool.Valid()
      modifies pool
      ensures this.pool == pool && Valid() && Contents() == [] && OthersKeepBytes(pool, this)
      ensures fresh(Storage()) || Storage() in old(pool.free)
      ensures poolPtr != null <==> initial <= pool.blockSize
      ensures WritableBytes() == if initial <= pool.blockSize then pool.blockSize else initial
      ensures pool.free == if initial <= pool.blockSize && old(pool.free) != []
                           then old(pool.free)[..|old(pool.free)| - 1] else old(pool.free)
    {
      this.pool := pool;
      readerIndex, writerIndex := PREPEND, PREPEND;
      poolPtr, poolCapacity := null, 0;
      heapBuf := new Byte[0];
      new;
      if initial <= pool.blockSize {
        StartInPool();
      } else {
        StartOnHeap(initial);
      }
    }

    method StartInPool()
      requires pool.Valid() && readerIndex == writerIndex == PREPEND
      modifies this, pool
      ensures Valid() && Contents() == [] && OthersKeepBytes(pool, this)
      ensures fresh(Storage()) || Storage() in old(pool.free)
      ensures poolPtr != null && WritableBytes() == pool.blockSize
      ensures pool.free == if old(pool.free) != [] then old(pool.free)[..|old(pool.free)| - 1] else []
    {
      poolPtr := pool.Acquire(this);
      poolCapacity := PREPEND + pool.blockSize;
    }

    method StartOnHeap(initial: nat)
      requires pool.Valid() && readerIndex == writerIndex == PREPEND && poolPtr == null
      modifies this, pool
      ensures Valid() && Contents() == [] && OthersKeepBytes(pool, this)
      ensures fresh(Storage()) && poolPtr == null && WritableBytes() == initial && pool.free == old(pool.free)
    {
      heapBuf := new Byte[PREPEND + initial];
      pool.backing := pool.backing[heapBuf := this];
    }

    /** The destructor: a pool block goes back to the pool, a heap array goes away. */
    method Destroy()
      requires Valid()
      modifies this, pool
      ensures pool.Valid() && OthersKeepBytes(pool, this)
      ensures pool.free == if old(poolPtr) != null then old(pool.free) + [old(poolPtr)] else old(pool.free)
      ensures pool.backing == old(pool.backing) - {old(Storage())}
    {
      if poolPtr != null {
        pool.Release(poolPtr);
        poolPtr, poolCapacity := null, 0;
      } else {
        pool.backing := pool.backing - {heapBuf};
      }
    }

    function ReadableBytes(): nat
      requires readerIndex <= writerIndex
      reads this
    {
      writerIndex - readerIndex
    }

    function WritableBytes(): nat
      requires writerIndex <= Storage().Length
      reads this
    {
      Storage().Length - writerIndex
    }

    method RetrieveAll()
      requires Valid()
      modifies this
      ensures Valid() && Contents() == [] && Storage() == old(Storage())
    {
      readerIndex, writerIndex := PREPEND, PREPEND;
    }

    /** The unread bytes, for reading. */
    method Peek() returns (data: seq<Byte>)
      requires Valid()
      ensures data == Contents()
    {
      data := Storage()[readerIndex..writerIndex];
    }

    /** Drops min(len, readable) bytes from the front. */
    method Retrieve(len: nat)
      requires Valid()
      modifies this
      ensures Valid() && Storage() == old(Storage())
      ensures Contents() == if len < |old(Contents())| then old(Contents())[len..] else []
    {
      if len < ReadableBytes() {
        readerIndex := readerIndex + len;
      } else {
        RetrieveAll();
      }
    }

    /** std::vector::resize to a larger size: a new array with the old bytes in front. */
    method ResizeHeap(n: nat)
      requires pool.Valid() && heapBuf.Length <= n
      requires poolPtr == null ==> heapBuf in pool.backing && pool.backing[heapBuf] == this
      modifies `heapBuf, pool
      ensures pool.Valid() && pool.free == old(pool.free) && fresh(heapBuf) && heapBuf.Length == n
      ensures heapBuf[..old(heapBuf).Length] == old(heapBuf[..])
      ensures pool.backing ==
        if poolPtr == null then (old(pool.backing) - {old(heapBuf)})[heapBuf := this] else old(pool.backing)
    {
      var bigger := new Byte[n];
      forall i | 0 <= i < heapBuf.Length {
        bigger[i] := heapBuf[i];
      }
      if poolPtr == null {
        pool.backing := (pool.backing - {heapBuf})[bigger := this];
      }
      heapBuf := bigger;
    }

    /** What would be writable if the unread bytes lay at the front. */
    function Room(): nat
      requires readerIndex <= writerIndex <= Storage().Length && PREPEND <= readerIndex
      reads this
    {
      Storage().Length - PREPEND - (writerIndex - readerIndex)
    }

    /** Room for len bytes: move the unread bytes to the front if that is enough; otherwise leave the
        pool for the heap, or grow on the heap. */
    method MakeSpace(len: nat)
      requires Valid() && WritableBytes() < len
      modifies this, pool, Storage()
      ensures Valid() && Contents() == old(Contents()) && WritableBytes() >= len
      ensures if old(Room()) >= len then Storage() == old(Storage()) && WritableBytes() == old(Room())
              else fresh(Storage()) && WritableBytes() == len
      ensures poolPtr == if old(Room()) >= len then old(poolPtr) else null
      ensures OthersKeepBytes(pool, this)
    {
      if WritableBytes() + readerIndex - PREPEND < len {
        if poolPtr != null {
          MigrateToHeap(len);
        } else {
          GrowHeap(len);
        }
      } else {
        Compact();
      }
    }

    /** memmove of the unread bytes to the front. */
    method Compact()
      requires Valid()
      modifies this, Storage()
      ensures Valid() && Contents() == old(Contents()) && Storage() == old(Storage()) && poolPtr == old(poolPtr)
      ensures WritableBytes() == old(Room())
      ensures OthersKeepBytes(pool, this)
    {
      var readable := ReadableBytes();
      MoveBytes(Storage(), readerIndex, PREPEND, readable);
      readerIndex := PREPEND;
      writerIndex := readerIndex + readable;
    }

    method GrowHeap(len: nat)
      requires Valid() && poolPtr == null && WritableBytes() < len
      modifies this, pool
      ensures Valid() && Contents() == old(Contents()) && WritableBytes() == len
      ensures fresh(Storage()) && poolPtr == null && OthersKeepBytes(pool, this)
    {
      ghost var bytes := heapBuf[..];
      ResizeHeap(writerIndex + len);
      assert heapBuf[..|bytes|][readerIndex..writerIndex] == heapBuf[readerIndex..writerIndex];
      assert bytes[readerIndex..writerIndex] == old(Contents());
    }

    method MigrateToHeap(len: nat)
      requires Valid() && poolPtr != null
      modifies this, pool
      ensures Valid() && poolPtr == null && Contents() == old(Contents()) && WritableBytes() == len
      ensures fresh(Storage()) && pool.free == old(pool.free) + [old(poolPtr)]
      ensures OthersKeepBytes(pool, this)
    {
      var readable := ReadableBytes();
      var heap := CopyOut(len);
      AdoptHeap(heap, readable);
    }

    /** Leave the pool block for a heap array that already holds the unread bytes. */
    method AdoptHeap(heap: array<Byte>, readable: nat)
      requires Valid() && poolPtr != null && heap !in pool.backing && heap !in pool.free && heap != poolPtr
      requires PREPEND + readable <= heap.Length
      modifies this, pool
      ensures Valid() && poolPtr == null && Storage() == heap
      ensures readerIndex == PREPEND && writerIndex == PREPEND + readable
      ensures pool.free == old(pool.free) + [old(poolPtr)]
      ensures OthersKeepBytes(pool, this)
    {
      pool.Release(poolPtr);
      pool.backing := pool.backing[heap := this];
      heapBuf := heap;
      readerIndex := PREPEND;
      writerIndex := readerIndex + readable;
      poolPtr, poolCapacity := null, 0;
    }

    /** A heap array with the unread bytes behind the reserved prefix and len bytes of room. */
    method CopyOut(len: nat) returns (heap: array<Byte>)
      requires Valid()
      ensures fresh(heap) && heap.Length == PREPEND + ReadableBytes() + len
      ensures heap[PREPEND..PREPEND + ReadableBytes()] == Contents()
    {
      heap := new Byte[PREPEND + ReadableBytes() + len];
      var s := Storage();
      forall i | 0 <= i < ReadableBytes() {
        heap[PREPEND + i] := s[readerIndex + i];
      }
    }

    /** memcpy to the write position. */
    method Write(data: seq<Byte>)
      requires Valid() && |data| <= WritableBytes()
      modifies this, Storage()
      ensures Valid() && Contents() == old(Contents()) + data && Storage() == old(Storage())
      ensures poolPtr == old(poolPtr)
      ensures OthersKeepBytes(pool, this)
    {
      PutBytes(Storage(), readerIndex, writerIndex, data);
      writerIndex := writerIndex + |data|;
    }

    method Append(data: seq<Byte>)
      requires Valid()
      modifies this, pool, Storage()
      ensures Valid() && Contents() == old(Contents()) + data
      ensures if old(Room()) >= |data| then Storage() == old(Storage()) && poolPtr == old(poolPtr)
              else fresh(Storage()) && poolPtr == null
      ensures OthersKeepBytes(pool, this)
    {
      if WritableBytes() < |data| {
        MakeSpace(|data|);
      }
      Write(data);
    }

    /** readv into the writable space and, when that is less than 64 KiB, a second block. incoming is
        what the kernel has to give. */
    method ReadFd(incoming: seq<Byte>, failed: bool) returns (n: int)
      requires Valid()
      requires |incoming| <= WritableBytes() + (if WritableBytes() < EXTRA then EXTRA else 0)
      modifies this, pool, Storage()
      ensures Valid() && OthersKeepBytes(pool, this)
      ensures n == if failed then -1 else |incoming|
      ensures Contents() == old(Contents()) + (if failed then [] else incoming)
    {
      if failed {
        return -1;
      }
      n := |incoming|;
      var writable := WritableBytes();
      if n <= writable {
        Write(incoming);
      } else {
        var extrabuf := incoming[writable..];
        Write(incoming[..writable]);
        Append(extrabuf);
        assert incoming[..writable] + extrabuf == incoming;
      }
    }
  }

  /** No block is ever both free and backing a live buffer, and no two live buffers share one. */
  lemma BlocksApart(a: Buffer, b: Buffer)
    requires a.Valid() && b.Valid() && a.pool == b.pool
    ensures a != b ==> a.Storage() != b.Storage()
    ensures a.Storage() !in a.pool.free
  {
    forall i | 0 <= i < |a.pool.free| ensures a.pool.free[i] != a.Storage() {
      assert a.pool.free[i] !in a.pool.backing;
    }
  }
}
