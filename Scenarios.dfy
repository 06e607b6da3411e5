/**
 * Clients of the bounded array. Each method drives the operations the way a
 * caller does and proves, from the operations' contracts alone, what the
 * caller observes.
 */
module Scenarios {
  import opened LinkedList
  import opened CustomArray

  /** The test of initArray: the first call succeeds, the second is refused. */
  method InitArrayTest(latch: InitLatch, a: CustArr) returns (first: CustStatus, second: CustStatus)
    requires a.Valid() && latch.status == Uninitialized
    modifies a`size, a`capacity, a`lock, a`initStatus, a`nodes, a`contents, a.headNode, latch
    ensures first == Success && second == Fail
    ensures a.Ready() && a.capacity == 20 && a.contents == [0] && a.nodes == [a.headNode]
  {
    first := a.InitArray(latch, 20);
    second := a.InitArray(latch, 20);
  }

  /** The test of freeArray: refused on a head-only array, accepted after one insertion. */
  method FreeArrayTest(a: CustArr) returns (empty: CustStatus, grown: CustStatus)
    requires a.Ready() && a.capacity == 20 && a.contents == [0]
    modifies a`size, a`lock, a`nodes, a`contents, a.Footprint()`next
    ensures empty == Fail && grown == Success
    ensures a.Ready() && a.contents == [0] && fresh(a.Footprint() - old(a.Footprint()))
  {
    empty := a.FreeArray();
    var ignored := a.InsertElementAtEnd(100, true);
    grown := a.FreeArray();
  }

  /** The test of getElement_atEnd: the last value after one and after four insertions. */
  method GetElementAtEndTest(a: CustArr) returns (one: int, four: int)
    requires a.Ready() && a.capacity == 20 && a.contents == [0]
    modifies a`size, a`lock, a`nodes, a`contents, a.Footprint()`next
    ensures one == 100 && four == 300
    ensures a.Ready() && a.contents == [0, 100, 100, 200, 300]
    ensures fresh(a.Footprint() - old(a.Footprint()))
  {
    one := LastAfterOneInsertion(a);
    four := LastAfterThreeInsertions(a);
  }

  /** Test 1 of getElement_atEnd: insert 100, then read the last element. */
  method LastAfterOneInsertion(a: CustArr) returns (d: int)
    requires a.Ready() && a.capacity == 20 && a.contents == [0]
    modifies a`size, a`lock, a`nodes, a`contents, a.Footprint()`next
    ensures d == 100
    ensures a.Ready() && a.contents == [0, 100]
    ensures fresh(a.Footprint() - old(a.Footprint()))
  {
    var ignored := a.InsertElementAtEnd(100, true);
    var status;
    status, d := a.GetElementAtEnd();
  }

  /** Test 2 of getElement_atEnd: insert 100, 200 and 300, then read the last element. */
  method LastAfterThreeInsertions(a: CustArr) returns (d: int)
    requires a.Ready() && a.capacity == 20 && a.contents == [0, 100]
    modifies a`size, a`lock, a`nodes, a`contents, a.Footprint()`next
    ensures d == 300
    ensures a.Ready() && a.contents == [0, 100, 100, 200, 300]
    ensures fresh(a.Footprint() - old(a.Footprint()))
  {
    var ignored := a.InsertElementAtEnd(100, true);
    assert a.contents == [0, 100, 100];
    ignored := a.InsertElementAtEnd(200, true);
    assert a.contents == [0, 100, 100, 200];
    ignored := a.InsertElementAtEnd(300, true);
    var status;
    status, d := a.GetElementAtEnd();
  }

  /** The test of deleteElement_atIndex: index 1 of a head-only array, then of a two-element one. */
  method DeleteElementAtIndexTest(a: CustArr) returns (outside: CustStatus, inside: CustStatus)
    requires a.Ready() && a.capacity == 20 && 2 <= a.size
    modifies a`size, a`lock, a`nodes, a`contents, a.Footprint()`next
    ensures outside == OutOfRange && inside == Success
    ensures a.Ready() && a.contents == [0] && fresh(a.Footprint() - old(a.Footprint()))
  {
    var ignored := a.FreeArray();
    outside := a.DeleteElementAtIndex(1);
    ignored := a.InsertElementAtEnd(100, true);
    inside := a.DeleteElementAtIndex(1);
  }

  /** The test of insertElement_atIndex: index 30, then index 1 of a three-element array. */
  method InsertElementAtIndexTest(a: CustArr) returns (outside: CustStatus, inside: CustStatus)
    requires a.Ready() && a.capacity == 20 && a.contents == [0]
    modifies a`size, a`lock, a`nodes, a`contents, a.Footprint()`next
    ensures outside == OutOfRange && inside == Success
    ensures a.Ready() && a.contents == [0, 99, 100, 100]
    ensures fresh(a.Footprint() - old(a.Footprint()))
  {
    var ignored := a.FreeArray();
    outside := a.InsertElementAtIndex(30, 99);
    inside := InsertInsideTwo(a);
  }

  /** Test 2 of insertElement_atIndex: append 100 twice, then insert 99 at index 1. */
  method InsertInsideTwo(a: CustArr) returns (inside: CustStatus)
    requires a.Ready() && a.capacity == 20 && a.contents == [0]
    modifies a`size, a`lock, a`nodes, a`contents, a.Footprint()`next
    ensures inside == Success
    ensures a.Ready() && a.contents == [0, 99, 100, 100]
    ensures fresh(a.Footprint() - old(a.Footprint()))
  {
    AppendHundredTwice(a);
    inside := a.InsertElementAtIndex(1, 99);
  }

  /** The step that test 2 of insertElement_atIndex and of getElement_atIndex share. */
  method AppendHundredTwice(a: CustArr)
    requires a.Ready() && a.capacity == 20 && a.contents == [0]
    modifies a`size, a`lock, a`nodes, a`contents, a.Footprint()`next
    ensures a.Ready() && a.capacity == 20 && a.contents == [0, 100, 100]
    ensures fresh(a.Footprint() - old(a.Footprint()))
  {
    var ignored := a.InsertElementAtEnd(100, true);
    ignored := a.InsertElementAtEnd(100, true);
  }

  /** The test of getElement_atIndex: index 30, then index 1 of a three-element array. */
  method GetElementAtIndexTest(a: CustArr) returns (outside: CustStatus, inside: CustStatus, d: int)
    requires a.Ready() && a.capacity == 20 && 2 <= a.size
    modifies a`size, a`lock, a`nodes, a`contents, a.Footprint()`next
    ensures outside == OutOfRange && inside == Success && d == 100
  {
    var ignored := a.FreeArray();
    outside, d := a.GetElementAtIndex(30, 0);
    AppendHundredTwice(a);
    inside, d := a.GetElementAtIndex(1, d);
  }

  /**
   * The whole self-test run on one array of capacity 20, the tests in the
   * order the run calls them. `codes` are the result codes the tests check
   * and `readBack` the values they read back; every test passes.
   */
  method TestRun() returns (codes: seq<CustStatus>, readBack: seq<int>)
    ensures codes == [Success, Fail, Fail, Success, OutOfRange, Success, OutOfRange, Success, OutOfRange, Success]
    ensures readBack == [100, 300, 100]
  {
    var latch := new InitLatch();
    var a := new CustArr();
    var codes1, readBack1 := FirstTests(latch, a);
    var codes2, d := LastTests(a);
    codes := codes1 + codes2;
    readBack := readBack1 + [d];
  }

  /** The first three tests of the run: initArray, freeArray and getElement_atEnd. */
  method FirstTests(latch: InitLatch, a: CustArr) returns (codes: seq<CustStatus>, readBack: seq<int>)
    requires a.Valid() && a.initStatus == Uninitialized && latch.status == Uninitialized
    modifies a`size, a`capacity, a`lock, a`initStatus, a`nodes, a`contents, a.headNode, latch
    ensures codes == [Success, Fail, Fail, Success] && readBack == [100, 300]
    ensures a.Ready() && a.capacity == 20 && a.contents == [0, 100, 100, 200, 300]
    ensures fresh(a.Footprint() - {a.headNode})
  {
    var init1, init2 := InitArrayTest(latch, a);
    var free1, free2 := FreeArrayTest(a);
    var end1, end2 := GetElementAtEndTest(a);
    codes := [init1, init2, free1, free2];
    readBack := [end1, end2];
  }

  /** The last three tests of the run: deleteElement_atIndex, insertElement_atIndex and getElement_atIndex. */
  method LastTests(a: CustArr) returns (codes: seq<CustStatus>, d: int)
    requires a.Ready() && a.capacity == 20 && a.contents == [0, 100, 100, 200, 300]
    modifies a`size, a`lock, a`nodes, a`contents, a.Footprint()`next
    ensures codes == [OutOfRange, Success, OutOfRange, Success, OutOfRange, Success] && d == 100
  {
    var del1, del2 := DeleteElementAtIndexTest(a);
    var ins1, ins2 := InsertElementAtIndexTest(a);
    var get1, get2;
    get1, get2, d := GetElementAtIndexTest(a);
    codes := [del1, del2, ins1, ins2, get1, get2];
  }

  /**
   * The latch belongs to the process, not to an array: once one array is
   * initialized, a second array is refused, yet reads as initialized.
   */
  method LatchIsProcessWide() returns (first: CustStatus, second: CustStatus, secondStatus: InitStatus)
    ensures first == Success && second == Fail && secondStatus == Initialized
  {
    var latch := new InitLatch();
    var a := new CustArr();
    var b := new CustArr();
    first := a.InitArray(latch, 20);
    second := b.InitArray(latch, 20);
    secondStatus := b.initStatus;
  }

  /**
   * An initial capacity of 0 is accepted: the array then holds one element
   * (its head) while its capacity is 0, and every insertion is refused.
   */
  method ZeroCapacityInit() returns (r: CustStatus, size: nat, capacity: nat, atEnd: CustStatus, atIndex: CustStatus)
    ensures r == Success && size == 1 && capacity == 0 && size > capacity
    ensures atEnd == Full && atIndex == OutOfRange
  {
    var latch := new InitLatch();
    var a := new CustArr();
    r := a.InitArray(latch, 0);
    size, capacity := a.SizeGet(), a.CapacityGet();
    atEnd := a.InsertElementAtEnd(7, true);
    atIndex := a.InsertElementAtIndex(1, 7);
  }

  /**
   * Inserting at an index strictly between the head and the end, then
   * reading that index, gives back the inserted value; the array grows by one.
   */
  method InsertThenGetAtIndex(a: CustArr, i: nat, v: int) returns (ins: CustStatus, get: CustStatus, d: int)
    requires a.Ready() && 1 <= i < a.size < a.capacity && i < 0x1_0000
    modifies a`size, a`lock, a`nodes, a`contents, a.Footprint()`next
    ensures a.Ready() && a.size == old(a.size) + 1
    ensures ins == Success && get == Success && d == v
  {
    ins := a.InsertElementAtIndex(i, v);
    get, d := a.GetElementAtIndex(i, 0);
  }

  /**
   * Deleting at index `i` closes the gap: the element that sat at `j + 1`
   * is read at `j` afterwards, for every `j` from `i` on.
   */
  method DeleteThenGetShifted(a: CustArr, i: nat, j: nat) returns (del: CustStatus, get: CustStatus, d: int)
    requires a.Ready() && 1 <= i <= j && j + 1 < a.size && a.size <= 0x1_0000
    modifies a`size, a`lock, a`nodes, a`contents, a.Footprint()`next
    ensures a.Ready() && a.size == old(a.size) - 1
    ensures del == Success && get == Success && d == old(a.contents)[j + 1]
  {
    del := a.DeleteElementAtIndex(i);
    get, d := a.GetElementAtIndex(j, 0);
  }

  /**
   * Clearing a grown array and reading its last element gives the head's
   * value 0, and the size is back to 1.
   */
  method FreeThenGetEnd(a: CustArr) returns (free: CustStatus, get: CustStatus, d: int)
    requires a.Ready() && a.size > 1
    modifies a`size, a`lock, a`nodes, a`contents, a.Footprint()`next
    ensures a.Ready() && a.SizeGet() == 1
    ensures free == Success && get == Success && d == 0
  {
    free := a.FreeArray();
    get, d := a.GetElementAtEnd();
  }

  /**
   * Deleting at an index undoes inserting at it: the array is back to the
   * elements and the size it had.
   */
  method InsertThenDeleteAtIndex(a: CustArr, i: nat, v: int) returns (ins: CustStatus, del: CustStatus)
    requires a.Ready() && 1 <= i < a.size < a.capacity && i < 0x1_0000
    modifies a`size, a`lock, a`nodes, a`contents, a.Footprint()`next
    ensures a.Ready() && a.size == old(a.size) && a.contents == old(a.contents)
    ensures ins == Success && del == Success
  {
    ins := a.InsertElementAtIndex(i, v);
    del := a.DeleteElementAtIndex(i);
    RemovedSpliced(old(a.contents), i, v);
  }

  /**
   * Reading the element at an index, deleting it and inserting the value
   * read back at that index restores the array's elements and size, for
   * every index but the last (see `LastIndexNotReinserted`).
   */
  method DeleteThenInsertAtIndex(a: CustArr, i: nat) returns (del: CustStatus, ins: CustStatus)
    requires a.Ready() && 1 <= i < a.size - 1 && a.size <= a.capacity && i < 0x1_0000
    modifies a`size, a`lock, a`nodes, a`contents, a.Footprint()`next
    ensures a.Ready() && a.size == old(a.size) && a.contents == old(a.contents)
    ensures del == Success && ins == Success
  {
    var got, x := a.GetElementAtIndex(i, 0);
    del := a.DeleteElementAtIndex(i);
    ins := a.InsertElementAtIndex(i, x);
    SplicedRemoved(old(a.contents), i);
  }

  /**
   * The last element, once deleted by its index, cannot be put back at that
   * index: the index now equals the size, and insertion there is refused
   * with Fail, leaving the array one element shorter.
   */
  method LastIndexNotReinserted(a: CustArr) returns (del: CustStatus, ins: CustStatus)
    requires a.Ready() && 2 <= a.size <= a.capacity && a.size <= 0x1_0000
    modifies a`size, a`lock, a`nodes, a`contents, a.Footprint()`next
    ensures a.Ready() && a.size == old(a.size) - 1 && a.contents == old(a.contents)[..old(a.size) - 1]
    ensures del == Success && ins == Fail
  {
    var last := a.size - 1;
    var got, x := a.GetElementAtIndex(last, 0);
    del := a.DeleteElementAtIndex(last);
    ins := a.InsertElementAtIndex(last, x);
  }
}
