/**
 * The bounded array: a record holding the head node of a chain, the live
 * element count `size` (the head counts as one element), a `capacity`
 * ceiling, an advisory `lock` flag and an `initStatus` flag. Each operation
 * checks capacity and index bounds, calls the list engine, adjusts `size` and
 * maps the engine's two-valued result onto a four-valued result code.
 *
 * `initArray` keeps a one-shot latch that lives for the whole process; it is
 * modelled as an `InitLatch` object, and every call of `InitArray` must be
 * given the same one.
 */
module CustomArray {
  import opened LinkedList

  /** custarr_std_ret_t */
  datatype CustStatus = Success | Fail | Full | OutOfRange

  /** pthread_mutex_t of the array header: a status flag, not a mutex */
  datatype Lock = Unlocked | Locked

  /** array_init_status_t */
  datatype InitStatus = Initialized | Uninitialized

  /**
   * The engine's result stored into an array result variable: the two
   * enumerations share the numbers 0 (success) and 1 (failure).
   */
  function FromEngine(st: Status): CustStatus
  {
    if st == OpSuccess then Success else Fail
  }

  /** The function-static `current_init_status` of initArray. */
  class InitLatch {
    var status: InitStatus

    constructor ()
      ensures status == Uninitialized
    {
      status := Uninitialized;
    }
  }

  /** custarr_t */
  class CustArr {
    /** the embedded head node: it belongs to the array and is never released */
    const headNode: Node
    var size: nat
    var capacity: nat
    var lock: Lock
    var initStatus: InitStatus
    /** the chain that starts at `headNode` */
    ghost var nodes: seq<Node>
    /** the values the chain holds, the head's first */
    ghost var contents: seq<int>

    /**
     * The invariant of an initialized array: `contents` are the chain's
     * values, `size` is the length of the chain, head included, it does not
     * exceed `capacity` (unless the array was initialized with capacity 0 and
     * holds only its head), and the head keeps the value 0 that
     * initialization gave it.
     */
    ghost predicate Inv()
      reads this`nodes, this`contents, this`size, this`capacity, Elems(nodes)`next, Elems(nodes)`data
    {
      && IsChain(headNode, nodes)
      && Holds(nodes, contents)
      && size == |nodes|
      && (size <= capacity || size == 1)
      && contents[0] == 0
    }

    /** Between operations the lock reads Unlocked, and an initialized array keeps Inv(). */
    ghost predicate Valid()
      reads this`lock, this`initStatus, this`nodes, this`contents, this`size, this`capacity, Elems(nodes)`next, Elems(nodes)`data
    {
      lock == Unlocked && (initStatus == Initialized ==> Inv())
    }

    /** A valid, initialized array: the state every operation but the init-checking ones expects. */
    ghost predicate Ready()
      reads this`lock, this`initStatus, this`nodes, this`contents, this`size, this`capacity, Elems(nodes)`next, Elems(nodes)`data
    {
      lock == Unlocked && initStatus == Initialized && Inv()
    }

    ghost function Footprint(): set<Node>
      reads this`nodes
    {
      Elems(nodes)
    }

    /** A declared array that initArray has not yet set up. */
    constructor ()
      ensures Valid() && initStatus == Uninitialized
      ensures fresh(headNode) && fresh(Footprint())
    {
      headNode := new Node(0);
      size := 0;
      capacity := 0;
      lock := Unlocked;
      initStatus := Uninitialized;
      nodes := [headNode];
      contents := [0];
    }

    /**
     * initArray: copies the latch into `initStatus`; only while the latch
     * is still Uninitialized does it set the array up and close the latch.
     * A refused call still leaves `initStatus` reading Initialized.
     */
    method InitArray(latch: InitLatch, initialCapacity: nat) returns (r: CustStatus)
      requires Valid()
      modifies this`size, this`capacity, this`lock, this`initStatus, this`nodes, this`contents, headNode, latch
      ensures latch.status == Initialized && initStatus == Initialized
      ensures r == (if old(latch.status) == Uninitialized then Success else Fail)
      ensures r == Success ==>
                && Ready()
                && size == 1 && capacity == initialCapacity
                && nodes == [headNode] && contents == [0]
      ensures r == Fail ==>
                && size == old(size) && capacity == old(capacity) && lock == old(lock)
                && nodes == old(nodes) && contents == old(contents) && unchanged(headNode)
      ensures r == Fail && old(initStatus) == Initialized ==> Ready()
    {
      r := Fail;
      initStatus := latch.status;
      if initStatus == Uninitialized {
        lock := Locked;
        headNode.data := 0;
        headNode.next := null;
        nodes := [headNode];
        contents := [0];
        size := 1;
        capacity := initialCapacity;
        initStatus := Initialized;
        latch.status := Initialized;
        r := Success;
        lock := Unlocked;
      }
    }

    /** insertElement_atEnd */
    method InsertElementAtEnd(data: int, allocOk: bool) returns (r: CustStatus)
      requires Ready()
      modifies this`size, this`lock, this`nodes, this`contents, Footprint()`next
      ensures Ready()
      ensures r == (if old(size) >= capacity then Full else if allocOk then Success else Fail)
      ensures r == Success ==> size == old(size) + 1 && contents == old(contents) + [data]
      ensures r != Success ==> size == old(size) && nodes == old(nodes) && contents == old(contents)
      ensures fresh(Footprint() - old(Footprint()))
    {
      r := Fail;
      var engineRet := OpFail;
      lock := Locked;
      if size < capacity {
        ghost var chain;
        engineRet, chain := InsertEnd(headNode, data, allocOk, nodes, contents);
        nodes := chain;
        if engineRet == OpSuccess {
          size := size + 1;
          contents := contents + [data];
          r := Success;
        }
      } else {
        r := Full;
      }
      lock := Unlocked;
    }

    /**
     * insertElement_atIndex: bounds are checked against the prospective size
     * `size + 1`, then the engine refuses index 0 and index `size`.
     */
    method InsertElementAtIndex(index: nat, data: int) returns (r: CustStatus)
      requires Ready()
      requires size + 1 <= capacity && index < size + 1 ==> index < 0x1_0000
      modifies this`size, this`lock, this`nodes, this`contents, Footprint()`next
      ensures Ready()
      ensures r == (if old(size) + 1 > capacity || index >= old(size) + 1 then OutOfRange
                    else if 1 <= index <= old(size) - 1 then Success
                    else Fail)
      ensures r == Success ==> size == old(size) + 1 && contents == Spliced(old(contents), index, data)
      ensures r != Success ==> size == old(size) && nodes == old(nodes) && contents == old(contents)
      ensures fresh(Footprint() - old(Footprint()))
    {
      r := Fail;
      var newSize := size + 1;
      var engineRet := OpFail;
      lock := Locked;
      if newSize <= capacity && index < newSize {
        ghost var chain;
        engineRet, chain := InsertIndex(headNode, index as UShort, data, nodes, contents);
        nodes := chain;
        if engineRet == OpSuccess {
          size := size + 1;
          contents := Spliced(contents, index, data);
          r := Success;
        }
      } else {
        r := OutOfRange;
      }
      lock := Unlocked;
    }

    /**
     * deleteElement_atEnd: only an initialized array whose head has a
     * successor loses its last element; anything else answers Fail.
     */
    method DeleteElementAtEnd() returns (r: CustStatus)
      requires Valid()
      modifies this`size, this`lock, this`nodes, this`contents, Footprint()`next
      ensures Valid()
      ensures r == (if old(initStatus) == Initialized && old(size) > 1 then Success else Fail)
      ensures r == Success ==>
                size == old(size) - 1 && contents == old(contents)[..old(size) - 1]
      ensures r == Fail ==> size == old(size) && nodes == old(nodes) && contents == old(contents)
      ensures Footprint() <= old(Footprint())
    {
      r := Fail;
      var engineRet := OpFail;
      lock := Locked;
      if initStatus == Initialized && headNode.next != null {
        ghost var chain, freed;
        engineRet, chain, freed := DeleteEnd(headNode, nodes, contents);
        nodes := chain;
        r := FromEngine(engineRet);
        size := size - 1;
        contents := contents[..size];
      }
      lock := Unlocked;
    }

    /** deleteElement_atIndex: the head (index 0) can never be removed. */
    method DeleteElementAtIndex(index: nat) returns (r: CustStatus)
      requires Ready()
      requires index < size ==> index < 0x1_0000
      modifies this`size, this`lock, this`nodes, this`contents, Footprint()`next
      ensures Ready()
      ensures r == (if index >= old(size) then OutOfRange else if index >= 1 then Success else Fail)
      ensures r == Success ==> size == old(size) - 1 && contents == Removed(old(contents), index)
      ensures r != Success ==> size == old(size) && nodes == old(nodes) && contents == old(contents)
      ensures Footprint() <= old(Footprint())
    {
      r := Fail;
      var engineRet := OpFail;
      lock := Locked;
      if index < size {
        ghost var chain, freed;
        engineRet, chain, freed := DeleteIndex(headNode, index as UShort, nodes, contents);
        nodes := chain;
        if engineRet == OpSuccess {
          size := size - 1;
          contents := Removed(contents, index);
          r := Success;
        }
      } else {
        r := OutOfRange;
      }
      lock := Unlocked;
    }

    /** getElement_atEnd: the last element, the head's 0 when nothing was inserted. */
    method GetElementAtEnd() returns (r: CustStatus, data: int)
      requires Ready()
      modifies this`lock
      ensures Ready()
      ensures r == Success && data == contents[size - 1]
    {
      lock := Locked;
      var engineRet;
      engineRet, data := GetEnd(headNode, nodes, contents);
      r := FromEngine(engineRet);
      lock := Unlocked;
    }

    /**
     * getElement_atIndex: any index below `size` is reported a Success, even
     * when the engine refuses it (index 0 of a head-only array) and `data`
     * keeps the value `data0` it had before the call.
     */
    method GetElementAtIndex(index: nat, data0: int) returns (r: CustStatus, data: int)
      requires Ready()
      requires index < size ==> index < 0x1_0000
      modifies this`lock
      ensures Ready()
      ensures r == (if index < size then Success else OutOfRange)
      ensures data == if index < size && size >= 2 then contents[index] else data0
    {
      data := data0;
      lock := Locked;
      if index < size {
        var engineRet;
        engineRet, data := GetIndex(headNode, index as UShort, data0, nodes, contents);
        r := Success;
      } else {
        r := OutOfRange;
      }
      lock := Unlocked;
    }

    /**
     * freeArray: releases every node after the head and sets `size` back to
     * 1; capacity and initialization status stay as they were.
     */
    method FreeArray() returns (r: CustStatus)
      requires Valid()
      modifies this`size, this`lock, this`nodes, this`contents, Footprint()`next
      ensures Valid()
      ensures r == (if old(initStatus) == Initialized && old(size) > 1 then Success else Fail)
      ensures r == Success ==> size == 1 && nodes == [headNode] && contents == [old(contents)[0]]
      ensures r == Fail ==> size == old(size) && nodes == old(nodes) && contents == old(contents)
      ensures Footprint() <= old(Footprint())
    {
      r := Fail;
      var engineRet := OpFail;
      lock := Locked;
      if initStatus == Initialized && headNode.next != null {
        ghost var chain, freed;
        engineRet, chain, freed := DeleteAll(headNode, nodes, contents);
        nodes := chain;
        size := 1;
        contents := [contents[0]];
        r := FromEngine(engineRet);
      }
      lock := Unlocked;
    }

    /** array_sizeGet: the number of elements, head included. */
    function SizeGet(): (r: nat)
      reads this, Elems(nodes)`next, Elems(nodes)`data
      ensures Ready() ==> r == |contents| && 1 <= r && (r <= capacity || r == 1)
    {
      size
    }

    /** array_capacityGet */
    function CapacityGet(): (r: nat)
      reads this, Elems(nodes)`next, Elems(nodes)`data
      ensures Ready() ==> |contents| <= r || |contents| == 1
    {
      capacity
    }

    /** array_lockstatus: between operations the flag always reads Unlocked. */
    function ArrayLockStatus(): (r: Lock)
      reads this, Elems(nodes)`next, Elems(nodes)`data
      ensures Valid() ==> r == Unlocked
    {
      lock
    }

    /** lock_getstatus: the same flag as array_lockstatus. */
    function LockGetStatus(): (r: Lock)
      reads this, Elems(nodes)`next, Elems(nodes)`data
      ensures Valid() ==> r == Unlocked
    {
      lock
    }

    /**
     * array_capacityUpdate: any capacity not below the current size is
     * accepted; the lock, the size and the chain are not touched.
     */
    method CapacityUpdate(newCapacity: nat) returns (r: CustStatus)
      requires Ready()
      modifies this`capacity
      ensures Ready()
      ensures r == (if newCapacity >= size then Success else Fail)
      ensures capacity == if r == Success then newCapacity else old(capacity)
    {
      r := Fail;
      if newCapacity >= size {
        capacity := newCapacity;
        r := Success;
      }
    }
  }
}
