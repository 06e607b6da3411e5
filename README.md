# Linked list engine and bounded array, in Dafny

This project models two C files:

- `linkedlist/linkedlist.c` is a singly linked list engine. A chain of `node_t`
  records starts at a head node that the caller owns. The head counts as
  position 0 and is never released. Each operation walks the chain from the
  head until it reaches the terminal node, the one whose
  `next_node_address_ptr` is `NULL`. Operations answer
  `LINKEDLIST_OP_SUCCESS` or `LINKEDLIST_OP_FAIL`.
- `linkedlist/example_project/CustomArray.c` is a bounded "array" (`custarr_t`)
  built on the engine. It holds the head node, a `size` (the head counts as one
  element), a `capacity`, a `lock` flag and an `init_status`. It checks
  capacity and index bounds, calls the engine, keeps `size` in step and answers
  one of `CUSTARR_OP_SUCCESS`, `_FAIL`, `_FULL` and `_OUTOFRANGE`.

The model keeps the C program's imperative form:

- Nodes are objects of a `Node` class with `data` and `next` fields.
- Every engine function is a method that walks the real chain with a `while`
  loop and relinks it in place.
- The engine methods take a ghost description of the chain: the sequence of its
  nodes (`IsChain`) and the values those nodes hold (`Holds`). They return the
  description of the chain they leave behind.
- Their contracts say what the chain holds afterwards, using two value-level
  functions, `Spliced` and `Removed`. They also say which nodes are new and,
  as a ghost `freed` set, which nodes the C code releases.
- `custarr_t` is a class `CustArr`. Its ghost `contents` is the sequence of
  values the array holds, the head's value first.
- `Inv` ties `contents` and `size` to the chain and bounds `size` by
  `capacity`. `Valid` adds that `lock` reads unlocked between operations.
- Every wrapper method states its new `size` and `contents`. Every wrapper
  method keeps `Valid`, with one exception: `InitArray` refused on an array
  that was never set up (see "## Left out").

A third module, `Scenarios`, replays the functions of
`linkedlist/example_project/array_test.c` against these contracts. It also
proves properties that relate several calls:

- insertion and deletion at an index undo each other;
- a value inserted at an index is read back at that index;
- deletion shifts the later elements down by one;
- the initialization latch is shared by the whole process;
- an array initialized with capacity 0 is in a particular state.

Some of this behaviour is easy to miss in the C code. The model states it as
the code has it:

- `linkedlist_insert_index` and `linkedlist_delete_index` act only at positions
  1 to length − 1. `insertElement_atIndex` lets through every index up to
  `size`, so an insertion at index 0 or at index `size` answers
  `CUSTARR_OP_FAIL`. Deleting the last element by its index and inserting it
  again at that index is therefore refused (`LastIndexNotReinserted`).
- `getElement_atIndex` reports success for every index below `size`. When the
  engine refuses the read, `data` is left as it was. That happens for index 0
  of a head-only array.
- The function-static latch of `initArray` is an `InitLatch` object, and
  every call of `InitArray` must be given the same one.
- `initArray` copies a function-static latch into `init_status` before it
  tests it. A second call, even on another array, is refused, and that array
  still reads as initialized.
- `initArray` accepts a capacity of 0. Such an array holds one element (its
  head) while its capacity is 0, and it refuses every insertion.
- `linkedlist_delete_end` unlinks the last node, but the pointer it hands to
  `free` is that node's `next` field, which is `NULL`. Its contract therefore
  says it releases nothing (`freed == {}`).
- The engine takes indices as `unsigned short` (`UShort`). Its
  `unsigned short` loop counters do wrap on chains longer than 65536 nodes.
  The index is below 65536, though, so the first match always comes before
  any wrap. Counting with `int` therefore gives the same first match as the
  C counter.

## Model

| member | source | states |
|---|---|---|
| LinkedList.Node.constructor | linkedlist/linkedlist.c:32-37 | a new node holds the given value and has no successor |
| LinkedList.NodesDistinct | linkedlist/linkedlist.c:149-153 | a chain that ends in a terminal node repeats no node: two different positions hold two different nodes |
| LinkedList.NodeUnique | linkedlist/linkedlist.c:186-187 | the node at one position of a chain sits at no other position, so relinking it leaves every other link unchanged |
| LinkedList.HoldsSpliced | linkedlist/linkedlist.c:68-69 | linking a node in at position i inserts its value at position i of the values the chain holds |
| LinkedList.HoldsRemoved | linkedlist/linkedlist.c:186-187 | unlinking the node at position i removes the value at position i |
| LinkedList.SplicedChain | linkedlist/linkedlist.c:64-76 | linking a new node after position i − 1 of a chain gives a well-formed chain with the new node at position i |
| LinkedList.Spliced | linkedlist/example_project/CustomArray.c:169-192 | the values before i are kept, v sits at i, and the later values move up by one |
| LinkedList.Removed | linkedlist/example_project/CustomArray.c:253-277 | the values before i are kept and the later values move down by one |
| LinkedList.RemovedSpliced | linkedlist/example_project/CustomArray.c:253-277 | removing at i the value just inserted at i gives the original values back |
| LinkedList.SplicedRemoved | linkedlist/example_project/CustomArray.c:169-192 | inserting at i the value just removed from i gives the original values back |
| LinkedList.InsertEnd | linkedlist/linkedlist.c:28-52 | succeeds exactly when allocation succeeds; then a fresh node holding the new value is linked after the terminal node, and the values become the old values plus the new one; otherwise the chain is unchanged |
| LinkedList.InsertIndex | linkedlist/linkedlist.c:54-80 | succeeds exactly when 1 <= index <= length − 1; then a fresh node sits at that index and the values are the old ones with the new value spliced in at that index; otherwise the chain is unchanged |
| LinkedList.GetEnd | linkedlist/linkedlist.c:82-100 | always succeeds and yields the value of the last node, which is the head's own value for a head-only chain |
| LinkedList.GetIndex | linkedlist/linkedlist.c:102-135 | succeeds exactly when the chain has at least two nodes and the index is a position of it; then it yields the value at that position; otherwise the output keeps its previous value |
| LinkedList.DeleteEnd | linkedlist/linkedlist.c:137-171 | succeeds exactly when the head has a successor; then the last node is unlinked and the last value dropped; no node is released |
| LinkedList.DeleteIndex | linkedlist/linkedlist.c:173-199 | succeeds exactly when 1 <= index <= length − 1; then exactly the node at that index is unlinked and released and its value removed; otherwise nothing changes and nothing is released |
| LinkedList.DeleteAll | linkedlist/linkedlist.c:203-237 | succeeds exactly when the head has a successor; then the chain is the head alone, keeping its value, and every node after the head is released |
| CustomArray.InitLatch.constructor | linkedlist/example_project/CustomArray.c:48 | the process-wide latch starts uninitialized |
| CustomArray.CustArr.constructor | linkedlist/example_project/CustomArray.h:126-132 | a declared array is valid, not yet initialized and owns a fresh head node |
| CustomArray.CustArr.InitArray | linkedlist/example_project/CustomArray.c:45-72 | succeeds exactly when the latch was still open; then the array holds only its head (value 0), size 1 and the given capacity; either way the latch and the array's status read initialized; a refused call leaves size, capacity, chain and head untouched |
| CustomArray.CustArr.InsertElementAtEnd | linkedlist/example_project/CustomArray.c:122-143 | answers Full when size >= capacity, else Success or Fail as allocation goes; on success the value is appended and size grows by one; otherwise nothing changes; the invariant is kept |
| CustomArray.CustArr.InsertElementAtIndex | linkedlist/example_project/CustomArray.c:169-192 | answers OutOfRange when size + 1 > capacity or index > size, Success when 1 <= index <= size − 1, and Fail otherwise; on success the value is spliced in at index and size grows by one; otherwise nothing changes |
| CustomArray.CustArr.DeleteElementAtEnd | linkedlist/example_project/CustomArray.c:214-230 | succeeds exactly when the array is initialized and holds more than its head; then the last value is dropped and size shrinks by one; otherwise nothing changes |
| CustomArray.CustArr.DeleteElementAtIndex | linkedlist/example_project/CustomArray.c:253-277 | answers OutOfRange when index >= size, Fail for index 0, Success otherwise; on success the value at index is removed and size shrinks by one; otherwise nothing changes |
| CustomArray.CustArr.GetElementAtEnd | linkedlist/example_project/CustomArray.c:300-308 | always succeeds and yields the last value (the head's 0 when nothing was inserted); only the lock is touched and it ends unlocked |
| CustomArray.CustArr.GetElementAtIndex | linkedlist/example_project/CustomArray.c:333-350 | answers Success for every index below size, else OutOfRange; yields the value at index when the array holds more than its head, and otherwise leaves the output as it was |
| CustomArray.CustArr.FreeArray | linkedlist/example_project/CustomArray.c:373-390 | succeeds exactly when the array is initialized and holds more than its head; then only the head and its value remain and size is 1; otherwise nothing changes; capacity and status are never touched |
| CustomArray.CustArr.SizeGet | linkedlist/example_project/CustomArray.c:409-412 | on an initialized array, the number of values held, head included: at least 1 and within capacity unless the array holds only its head |
| CustomArray.CustArr.CapacityGet | linkedlist/example_project/CustomArray.c:431-434 | on an initialized array, the number of values held does not exceed it unless only the head is held |
| CustomArray.CustArr.ArrayLockStatus | linkedlist/example_project/CustomArray.c:454-457 | between operations the lock reads unlocked |
| CustomArray.CustArr.LockGetStatus | linkedlist/example_project/CustomArray.c:94-97 | between operations the lock reads unlocked |
| CustomArray.CustArr.CapacityUpdate | linkedlist/example_project/CustomArray.c:481-496 | accepts exactly a capacity not below size and stores it; a refused capacity is not stored; the invariant is kept |
| Scenarios.TestRun | linkedlist/example_project/array_test.c:49-66 | the six tests, run in order on one fresh array, yield exactly the result codes the tests expect and read back 100, 300 and 100 |
| Scenarios.FirstTests | linkedlist/example_project/array_test.c:57-59 | the first three tests answer Success, Fail, Fail, Success and leave the array holding 0, 100, 100, 200, 300 |
| Scenarios.LastTests | linkedlist/example_project/array_test.c:60-62 | on that array the last three tests answer OutOfRange, Success, OutOfRange, Success, OutOfRange, Success and read back 100 |
| Scenarios.InitArrayTest | linkedlist/example_project/array_test.c:74-106 | the first initialization succeeds, the second is refused, and the array holds only its head with capacity 20 |
| Scenarios.FreeArrayTest | linkedlist/example_project/array_test.c:154-193 | freeing a head-only array fails; after one insertion it succeeds and only the head remains |
| Scenarios.GetElementAtEndTest | linkedlist/example_project/array_test.c:107-152 | reads 100 after one insertion and 300 after three more |
| Scenarios.LastAfterOneInsertion | linkedlist/example_project/array_test.c:118-124 | inserting 100 at the end and reading the last element gives 100 |
| Scenarios.LastAfterThreeInsertions | linkedlist/example_project/array_test.c:127-135 | inserting 100, 200, 300 at the end and reading the last element gives 300 |
| Scenarios.DeleteElementAtIndexTest | linkedlist/example_project/array_test.c:233-272 | after freeing, deleting index 1 is OutOfRange; after one insertion, deleting index 1 succeeds |
| Scenarios.InsertElementAtIndexTest | linkedlist/example_project/array_test.c:195-230 | after freeing, inserting at index 30 is OutOfRange; after two insertions, inserting at index 1 succeeds |
| Scenarios.InsertInsideTwo | linkedlist/example_project/array_test.c:211-219 | with two values appended after the head, inserting 99 at index 1 succeeds |
| Scenarios.AppendHundredTwice | linkedlist/example_project/array_test.c:212-213 | appending 100 twice to a head-only array leaves it holding 0, 100, 100 |
| Scenarios.GetElementAtIndexTest | linkedlist/example_project/array_test.c:274-310 | after freeing, reading index 30 is OutOfRange; after two insertions, reading index 1 succeeds and gives 100 |
| Scenarios.LatchIsProcessWide | linkedlist/example_project/CustomArray.c:48-52 | after one array is initialized, initializing a second array is refused, yet the second array reads as initialized |
| Scenarios.ZeroCapacityInit | linkedlist/example_project/CustomArray.c:59-60 | an array initialized with capacity 0 has size 1 > capacity 0, and inserting at the end (Full) or at index 1 (OutOfRange) is refused |
| Scenarios.InsertThenGetAtIndex | linkedlist/example_project/CustomArray.c:169-192 | a value inserted at an index strictly inside the array is read back at that index |
| Scenarios.DeleteThenGetShifted | linkedlist/example_project/CustomArray.c:253-277 | after deleting at index i, the value that sat at j + 1 is read at j, for every j >= i |
| Scenarios.FreeThenGetEnd | linkedlist/example_project/CustomArray.c:373-390 | after freeing a grown array its size is 1 and its last element is the head's 0 |
| Scenarios.InsertThenDeleteAtIndex | linkedlist/example_project/CustomArray.c:253-277 | deleting at an index right after inserting there restores the array's values and size |
| Scenarios.DeleteThenInsertAtIndex | linkedlist/example_project/CustomArray.c:169-192 | reading, deleting and re-inserting at an index below the last restores the array's values and size |
| Scenarios.LastIndexNotReinserted | linkedlist/example_project/CustomArray.c:169-192 | the last element, deleted by its index, cannot be inserted back at that index: the insertion answers Fail and the array stays one shorter |

## Left out

- File output and result logging in `array_test.c` (`fopen`, `fprintf`, the pass/fail printing) are left out. The scenarios return the codes and values the tests compare instead.
- `lock` is modelled as the status flag the code writes. No concurrency is modelled, and nothing blocks on the flag.
- Memory is not modelled beyond allocation and release: `free` appears only as the ghost `freed` sets of the engine's delete methods. Leaks are visible only as nodes that are unlinked but not in `freed`.
- CustomArray.CustArr.InitArray: a refused call on an array that was never set up leaves it reading Initialized with the declared `size` 0, so `Inv` does not hold. Nothing further is modelled on such an array, although in C later calls on it still answer (`FAIL` from `freeArray`, `deleteElement_atEnd` and `initArray`; `FULL` from `insertElement_atEnd`).
- CustomArray.InitLatch: the C latch is one `static` variable, so a process cannot reset it. The model cannot stop a caller from creating a second `InitLatch` and initializing again; only the convention that every call is given the same latch captures the C behaviour.
- `memFree_safe` (`linkedlist.c:242-249`) has no member of its own. Its effect is part of `DeleteAll`'s `freed` set.
- LinkedList.InsertIndex: the result of `malloc` is not checked in the C code, so the model assumes that allocation succeeds. The node it allocates for a refused index is never linked or released, and the model does not track that leak.
- LinkedList.InsertEnd: the outcome of `malloc` is the parameter `allocOk`, because the allocator is outside the model.
- CustomArray.CustArr.InsertElementAtIndex, DeleteElementAtIndex, GetElementAtIndex: the `size_t` index is converted to `unsigned short` when it reaches the engine. The model requires such an index to be below 65536 instead of modelling the truncation.
- `size` and `capacity` are unbounded naturals, not `size_t`. No wrap-around is modelled.
- CustomArray.CustArr.constructor: a `custarr_t` at file scope is zero-initialized in C, which makes its `init_status` read `ARRAY_INITIALIZED` (value 0). The model starts a declared array as uninitialized, as `initArray` expects.
- CustomArray.CustArr.InsertElementAtEnd, InsertElementAtIndex, DeleteElementAtIndex, GetElementAtEnd, GetElementAtIndex, CapacityUpdate: these require an initialized array. The C code does not check `init_status` here and would read undefined fields of an uninitialized one.
- CustomArray.CustArr.GetElementAtIndex: when the engine does not write `*data`, the C variable keeps whatever it held, possibly an uninitialized value. The model passes that prior value in as `data0`.
