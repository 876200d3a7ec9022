/**
 * Grid geometry for children inside a container node: fixed-size slots tiled
 * row-major inside the container's padding, nearest-slot occupancy, snapping a
 * drop point to the nearest free slot, re-flow after a resize and the container
 * size needed for a number of children.
 *
 * Positions are integers. The source compares `Math.sqrt` distances; the square
 * root is monotone, so the model compares squared distances instead.
 */
module GridLayout {
  import opened Optional
  import opened Graph

  // GRID_CONFIG
  const ChildWidth := 288
  const ChildHeight := 100
  const GapX := 12
  const GapY := 12
  const PaddingTop := 75
  const PaddingLeft := 12
  const PaddingRight := 12
  const PaddingBottom := 12
  const MinContainerWidth := 320
  const MinContainerHeight := 180
  const DefaultCols := 1

  datatype GridSlot = GridSlot(row: int, col: int, x: int, y: int)

  datatype Size = Size(width: int, height: int)

  function Max(a: int, b: int): int {
    if a >= b then a else b
  }

  function SlotPoint(s: GridSlot): Point {
    Point(s.x, s.y)
  }

  // ---------------------------------------------------------------------------
  // Specification of the slot grid
  // ---------------------------------------------------------------------------

  /** Columns that fit in a container of width `w` (never fewer than one). */
  function Cols(w: int): (c: int)
    ensures c >= 1
  {
    Max(1, (w - PaddingLeft - PaddingRight + GapX) / (ChildWidth + GapX))
  }

  /** Rows that fit in a container of height `h` (never fewer than one). */
  function Rows(h: int): (r: int)
    ensures r >= 1
  {
    Max(1, (h - PaddingTop - PaddingBottom + GapY) / (ChildHeight + GapY))
  }

  /** Where the child placed `k`-th in row-major order of a `cols`-wide grid sits. */
  function CellPosition(k: nat, cols: int): Point
    requires cols >= 1
  {
    Point(PaddingLeft + (k % cols) * (ChildWidth + GapX), PaddingTop + (k / cols) * (ChildHeight + GapY))
  }

  /** The `k`-th slot in row-major order of a `cols`-wide grid. */
  function SlotAt(k: nat, cols: int): (s: GridSlot)
    requires cols >= 1
    ensures SlotPoint(s) == CellPosition(k, cols)
  {
    GridSlot(k / cols, k % cols, PaddingLeft + (k % cols) * (ChildWidth + GapX), PaddingTop + (k / cols) * (ChildHeight + GapY))
  }

  /** The slots of a `w` x `h` container, row-major. */
  ghost function Slots(w: int, h: int): (slots: seq<GridSlot>)
    ensures |slots| == Rows(h) * Cols(w) >= 1
  {
    MulPositive(Rows(h), Cols(w));
    seq(Rows(h) * Cols(w), k requires 0 <= k => SlotAt(k, Cols(w)))
  }

  // ---------------------------------------------------------------------------
  // Arithmetic helpers
  // ---------------------------------------------------------------------------

  lemma MulPositive(a: int, b: int)
    requires a >= 1 && b >= 1
    ensures a * b >= 1 && a * b >= a && a * b >= b
  {
  }

  /** Euclidean division is determined by quotient and remainder. */
  lemma DivModUnique(a: int, b: int, q: int, r: int)
    requires b > 0 && 0 <= r < b && a == q * b + r
    ensures a / b == q && a % b == r
  {
    var q', r' := a / b, a % b;
    assert a == q' * b + r';
    if q' < q {
      assert (q - q') * b == r' - r;
      MulAtLeast(q - q', b);
    } else if q' > q {
      assert (q' - q) * b == r - r';
      MulAtLeast(q' - q, b);
    }
  }

  lemma MulAtLeast(m: int, b: int)
    requires m >= 1 && b > 0
    ensures m * b >= b
  {
  }

  /** The slot grid is never empty, so the source's `slots.length === 0` branches are dead. */
  lemma GridSlotsNonEmpty(w: int, h: int)
    ensures |Slots(w, h)| >= 1
    ensures Slots(w, h)[0] == GridSlot(0, 0, PaddingLeft, PaddingTop)
  {
  }

  /** The last slot sits in the last column, which is how the overflow branch of the re-flow recovers the column count. */
  lemma LastSlotColumn(w: int, h: int)
    ensures Slots(w, h)[|Slots(w, h)| - 1].col + 1 == Cols(w)
  {
    var c, r := Cols(w), Rows(h);
    assert r * c - 1 == (r - 1) * c + (c - 1);
    DivModUnique(r * c - 1, c, r - 1, c - 1);
  }

  /** The slot in row `row`, column `col` comes at place `row * cols + col` of the row-major order. */
  lemma SlotAtRowCol(row: nat, col: nat, cols: int)
    requires 0 <= col < cols
    ensures row * cols + col >= 0
    ensures SlotAt(row * cols + col, cols)
            == GridSlot(row, col, PaddingLeft + col * (ChildWidth + GapX), PaddingTop + row * (ChildHeight + GapY))
  {
    DivModUnique(row * cols + col, cols, row, col);
  }

  // ---------------------------------------------------------------------------
  // getGridSlots
  // ---------------------------------------------------------------------------

  /** `getGridSlots`: every row, every column of the container's grid, row-major. */
  method GetGridSlots(containerWidth: int, containerHeight: int) returns (slots: seq<GridSlot>)
    ensures |slots| == Rows(containerHeight) * Cols(containerWidth) >= 1
    ensures forall k :: 0 <= k < |slots| ==> slots[k] == SlotAt(k, Cols(containerWidth))
    ensures slots == Slots(containerWidth, containerHeight)
  {
    var availableWidth := containerWidth - PaddingLeft - PaddingRight;
    var availableHeight := containerHeight - PaddingTop - PaddingBottom;
    var cols := Max(1, (availableWidth + GapX) / (ChildWidth + GapX));
    var rows := Max(1, (availableHeight + GapY) / (ChildHeight + GapY));
    assert cols == Cols(containerWidth) && rows == Rows(containerHeight);
    slots := [];
    var row := 0;
    while row < rows
      invariant 0 <= row <= rows
      invariant |slots| == row * cols
      invariant forall k :: 0 <= k < |slots| ==> slots[k] == SlotAt(k, cols)
    {
      var col := 0;
      while col < cols
        invariant 0 <= col <= cols
        invariant |slots| == row * cols + col
        invariant forall k :: 0 <= k < |slots| ==> slots[k] == SlotAt(k, cols)
      {
        SlotAtRowCol(row, col, cols);
        slots := AppendSlot(slots, GridSlot(row, col, PaddingLeft + col * (ChildWidth + GapX), PaddingTop + row * (ChildHeight + GapY)), cols);
        col := col + 1;
      }
      assert (row + 1) * cols == row * cols + cols;
      row := row + 1;
    }
    MulPositive(rows, cols);
    SlotsByIndex(slots, containerWidth, containerHeight);
  }

  /** One more slot, the next one of the row-major order, keeps the list the row-major prefix. */
  function AppendSlot(slots: seq<GridSlot>, slot: GridSlot, cols: int): (r: seq<GridSlot>)
    requires cols >= 1
    requires forall k :: 0 <= k < |slots| ==> slots[k] == SlotAt(k, cols)
    requires slot == SlotAt(|slots|, cols)
    ensures |r| == |slots| + 1
    ensures forall k :: 0 <= k < |r| ==> r[k] == SlotAt(k, cols)
  {
    slots + [slot]
  }

  /** A list holding the `k`-th slot at every place `k` of the grid is the grid. */
  lemma SlotsByIndex(slots: seq<GridSlot>, w: int, h: int)
    requires |slots| == Rows(h) * Cols(w)
    requires forall k :: 0 <= k < |slots| ==> slots[k] == SlotAt(k, Cols(w))
    ensures slots == Slots(w, h)
  {
  }

  // ---------------------------------------------------------------------------
  // Nearest slots
  // ---------------------------------------------------------------------------

  function SqDist(p: Point, s: GridSlot): int {
    (p.x - s.x) * (p.x - s.x) + (p.y - s.y) * (p.y - s.y)
  }

  /**
   * Slot `k`, among the first `n` slots not in `skip`, is nearest to `p`, and
   * every earlier such slot is strictly farther (the strict `<` of the source
   * keeps the first of equally near slots).
   */
  ghost predicate IsClosestFree(p: Point, slots: seq<GridSlot>, n: int, skip: set<int>, k: int) {
    && 0 <= k < n <= |slots|
    && k !in skip
    && (forall j :: 0 <= j < n && j !in skip ==> SqDist(p, slots[k]) <= SqDist(p, slots[j]))
    && (forall j :: 0 <= j < k && j !in skip ==> SqDist(p, slots[k]) < SqDist(p, slots[j]))
  }

  /** The scan over the first `n` slots: skip those in `skip`, keep the first strictly nearer one. */
  function ClosestFree(p: Point, slots: seq<GridSlot>, n: nat, skip: set<int>): (r: Option<nat>)
    requires n <= |slots|
    ensures r.None? <==> forall j :: 0 <= j < n ==> j in skip
    ensures r.Some? ==> IsClosestFree(p, slots, n, skip, r.value)
  {
    if n == 0 then None
    else
      var prev := ClosestFree(p, slots, n - 1, skip);
      if n - 1 in skip then prev
      else if prev.None? then Some(n - 1)
      else if SqDist(p, slots[n - 1]) < SqDist(p, slots[prev.value]) then Some(n - 1)
      else prev
  }

  /** The slot a child at `p` is counted as occupying. */
  function Nearest(p: Point, slots: seq<GridSlot>): (k: nat)
    requires |slots| >= 1
    ensures k < |slots|
  {
    ClosestFree(p, slots, |slots|, {}).value
  }

  /** A child's slot is the nearest one, the first of equally near ones. */
  lemma NearestIsClosest(p: Point, slots: seq<GridSlot>)
    requires |slots| >= 1
    ensures IsClosestFree(p, slots, |slots|, {}, Nearest(p, slots))
  {
  }

  /** The slots the children occupy: each child's nearest slot. */
  function Occupied(children: seq<Node>, slots: seq<GridSlot>): (occ: set<int>)
    requires |slots| >= 1
    ensures |occ| <= |children|
    ensures forall k :: k in occ ==> 0 <= k < |slots|
  {
    if children == [] then {}
    else Occupied(children[..|children| - 1], slots) + {Nearest(children[|children| - 1].position, slots)}
  }

  /** A slot is occupied exactly when it is the nearest slot of some child. */
  lemma {:induction false} OccupiedMembers(children: seq<Node>, slots: seq<GridSlot>, k: int)
    requires |slots| >= 1
    ensures k in Occupied(children, slots) <==> exists i :: 0 <= i < |children| && Nearest(children[i].position, slots) == k
  {
    if children != [] {
      var init, last := children[..|children| - 1], children[|children| - 1];
      OccupiedMembers(init, slots, k);
      if k in Occupied(init, slots) {
        var i :| 0 <= i < |init| && Nearest(init[i].position, slots) == k;
        assert children[i] == init[i];
      } else if k == Nearest(last.position, slots) {
        assert Nearest(children[|children| - 1].position, slots) == k;
      } else {
        forall i | 0 <= i < |children| ensures Nearest(children[i].position, slots) != k {
          if i < |init| {
            assert children[i] == init[i];
          }
        }
      }
    }
  }

  /**
   * The inner `slots.forEach` of the three searches: the index of the nearest
   * slot not in `skip`, or -1 when every slot is skipped (`minDistance` starts
   * at Infinity, modelled as None).
   */
  method ClosestSlotIndex(p: Point, slots: seq<GridSlot>, skip: set<int>) returns (closest: int)
    ensures ClosestFree(p, slots, |slots|, skip) == if closest == -1 then None else Some(closest)
    ensures closest == -1 <==> forall j :: 0 <= j < |slots| ==> j in skip
    ensures closest != -1 ==> IsClosestFree(p, slots, |slots|, skip, closest)
  {
    var minDistance: Option<int> := None;
    closest := -1;
    var index := 0;
    while index < |slots|
      invariant 0 <= index <= |slots|
      invariant ClosestFree(p, slots, index, skip) == if closest == -1 then None else Some(closest)
      invariant closest == -1 <==> minDistance.None?
      invariant closest != -1 ==> 0 <= closest < index && minDistance == Some(SqDist(p, slots[closest]))
    {
      if index !in skip {
        var distance := SqDist(p, slots[index]);
        if minDistance.None? || distance < minDistance.value {
          minDistance := Some(distance);
          closest := index;
        }
      }
      index := index + 1;
    }
  }

  /** `getOccupiedSlotIndices`: the nearest slot of every child, as a set. */
  method GetOccupiedSlotIndices(childNodes: seq<Node>, containerWidth: int, containerHeight: int)
    returns (occupied: set<int>)
    ensures occupied == Occupied(childNodes, Slots(containerWidth, containerHeight))
    ensures |occupied| <= |childNodes|
    ensures forall k :: k in occupied ==> 0 <= k < Rows(containerHeight) * Cols(containerWidth)
  {
    var slots := GetGridSlots(containerWidth, containerHeight);
    occupied := {};
    var i := 0;
    while i < |childNodes|
      invariant 0 <= i <= |childNodes|
      invariant occupied == Occupied(childNodes[..i], slots)
    {
      var closestSlotIndex := ClosestSlotIndex(childNodes[i].position, slots, {});
      assert closestSlotIndex == Nearest(childNodes[i].position, slots);
      if closestSlotIndex >= 0 {
        occupied := occupied + {closestSlotIndex};
      }
      OccupiedStep(childNodes, i, slots);
      i := i + 1;
    }
    assert childNodes[..i] == childNodes;
  }

  /** One more child adds its nearest slot. */
  lemma OccupiedStep(children: seq<Node>, i: nat, slots: seq<GridSlot>)
    requires i < |children| && |slots| >= 1
    ensures Occupied(children[..i + 1], slots) == Occupied(children[..i], slots) + {Nearest(children[i].position, slots)}
  {
    assert children[..i + 1][..i] == children[..i];
  }

  // ---------------------------------------------------------------------------
  // findFirstEmptySlot, snapToGrid, calculateGridPosition
  // ---------------------------------------------------------------------------

  /** Slot `k` is the lowest-index slot not in `occ`. */
  ghost predicate IsFirstFree(slots: seq<GridSlot>, occ: set<int>, k: int) {
    0 <= k < |slots| && k !in occ && forall j :: 0 <= j < k ==> j in occ
  }

  /** The lowest index in `i..n` that is not in `occ`, or `n` when there is none. */
  ghost function FirstFreeFrom(n: nat, occ: set<int>, i: nat): nat
    decreases n - i
  {
    if i >= n then n else if i !in occ then i else FirstFreeFrom(n, occ, i + 1)
  }

  lemma {:induction false} FirstFreeFromSpec(n: nat, occ: set<int>, i: nat)
    requires i <= n && forall j :: 0 <= j < i ==> j in occ
    ensures var k := FirstFreeFrom(n, occ, i);
            && k <= n
            && (forall j :: 0 <= j < k ==> j in occ)
            && (k < n ==> k !in occ)
    decreases n - i
  {
    if i < n && i in occ {
      FirstFreeFromSpec(n, occ, i + 1);
    }
  }

  /** Where `findFirstEmptySlot` puts a new child: the lowest free slot, or the left edge of a new row below the children. */
  ghost function EmptySlotPoint(childNodes: seq<Node>, containerWidth: int, containerHeight: int): Point {
    var slots := Slots(containerWidth, containerHeight);
    var k := FirstFreeFrom(|slots|, Occupied(childNodes, slots), 0);
    if k < |slots| then SlotPoint(slots[k])
    else Point(PaddingLeft, PaddingTop + (|childNodes| / |slots| + 1) * (ChildHeight + GapY))
  }

  /** The point is the lowest free slot when one is free; when every slot is taken it is one row below the children. */
  lemma EmptySlotPointIsFirstFree(childNodes: seq<Node>, containerWidth: int, containerHeight: int)
    ensures var p := EmptySlotPoint(childNodes, containerWidth, containerHeight);
            var slots := Slots(containerWidth, containerHeight);
            var occ := Occupied(childNodes, slots);
            && ((exists k :: 0 <= k < |slots| && k !in occ) ==>
                  exists k :: IsFirstFree(slots, occ, k) && p == SlotPoint(slots[k]))
            && ((forall k :: 0 <= k < |slots| ==> k in occ) ==>
                  p == Point(PaddingLeft, PaddingTop + (|childNodes| / |slots| + 1) * (ChildHeight + GapY)))
  {
    var slots := Slots(containerWidth, containerHeight);
    var occ := Occupied(childNodes, slots);
    FirstFreeFromSpec(|slots|, occ, 0);
    var k := FirstFreeFrom(|slots|, occ, 0);
    if k < |slots| {
      assert IsFirstFree(slots, occ, k);
    }
  }

  /** `findFirstEmptySlot`. */
  method FindFirstEmptySlot(childNodes: seq<Node>, containerWidth: int, containerHeight: int) returns (p: Point)
    ensures p == EmptySlotPoint(childNodes, containerWidth, containerHeight)
  {
    var slots := GetGridSlots(containerWidth, containerHeight);
    var occupied := GetOccupiedSlotIndices(childNodes, containerWidth, containerHeight);
    var i := 0;
    while i < |slots|
      invariant 0 <= i <= |slots|
      invariant FirstFreeFrom(|slots|, occupied, i) == FirstFreeFrom(|slots|, occupied, 0)
    {
      if i !in occupied {
        return SlotPoint(slots[i]);
      }
      i := i + 1;
    }
    var newRow := |childNodes| / Max(1, |slots|) + 1;
    p := Point(PaddingLeft, PaddingTop + newRow * (ChildHeight + GapY));
  }

  /** `snapToGrid`: the slot nearest to `position`, the first of equally near ones. */
  method SnapToGrid(position: Point, containerWidth: int, containerHeight: int) returns (p: Point)
    ensures var slots := Slots(containerWidth, containerHeight);
            exists k :: IsClosestFree(position, slots, |slots|, {}, k) && p == SlotPoint(slots[k])
  {
    var slots := GetGridSlots(containerWidth, containerHeight);
    var closestSlot := slots[0];
    var closestIndex := ClosestSlotIndex(position, slots, {});
    if closestIndex >= 0 {
      closestSlot := slots[closestIndex];
    }
    p := SlotPoint(closestSlot);
  }

  /** The siblings that count for occupancy: all but the dropped node itself (an empty id filters nothing). */
  function OtherChildren(siblingNodes: seq<Node>, droppedNodeId: string): (r: seq<Node>)
    ensures |r| <= |siblingNodes|
    ensures droppedNodeId != "" ==> forall k :: 0 <= k < |r| ==> r[k].id != droppedNodeId
  {
    if droppedNodeId != "" then WithoutId(siblingNodes, droppedNodeId) else siblingNodes
  }

  /** Where `calculateGridPosition` puts a dropped node: its nearest free slot, or the first slot when none is free. */
  ghost function GridPosition(dropPosition: Point, siblingNodes: seq<Node>, containerWidth: int,
                              containerHeight: int, droppedNodeId: string): Point
  {
    var slots := Slots(containerWidth, containerHeight);
    var best := ClosestFree(dropPosition, slots, |slots|, Occupied(OtherChildren(siblingNodes, droppedNodeId), slots));
    if best.Some? then SlotPoint(slots[best.value]) else SlotPoint(slots[0])
  }

  /**
   * The position is the free slot nearest to the drop point (the first of
   * equally near ones), the siblings' occupancy ignoring the dropped node's own
   * entry; when every slot is taken it is the first slot, not a new row.
   */
  lemma GridPositionIsNearestFree(dropPosition: Point, siblingNodes: seq<Node>, containerWidth: int,
                                  containerHeight: int, droppedNodeId: string)
    ensures var slots := Slots(containerWidth, containerHeight);
            var occ := Occupied(OtherChildren(siblingNodes, droppedNodeId), slots);
            var p := GridPosition(dropPosition, siblingNodes, containerWidth, containerHeight, droppedNodeId);
            && ((exists k :: 0 <= k < |slots| && k !in occ) ==>
                  exists k :: IsClosestFree(dropPosition, slots, |slots|, occ, k) && p == SlotPoint(slots[k]))
            && ((forall k :: 0 <= k < |slots| ==> k in occ) ==> p == SlotPoint(slots[0]))
  {
    var slots := Slots(containerWidth, containerHeight);
    var occ := Occupied(OtherChildren(siblingNodes, droppedNodeId), slots);
    var best := ClosestFree(dropPosition, slots, |slots|, occ);
    if best.Some? {
      assert IsClosestFree(dropPosition, slots, |slots|, occ, best.value);
    }
  }

  /**
   * `calculateGridPosition`: the free slot nearest to the drop point, ignoring
   * the dropped node's own entry; the first slot when every slot is taken.
   */
  method CalculateGridPosition(dropPosition: Point, siblingNodes: seq<Node>, containerWidth: int,
                               containerHeight: int, droppedNodeId: string) returns (p: Point)
    ensures p == GridPosition(dropPosition, siblingNodes, containerWidth, containerHeight, droppedNodeId)
  {
    var otherChildren := if droppedNodeId != "" then WithoutId(siblingNodes, droppedNodeId) else siblingNodes;
    var slots := GetGridSlots(containerWidth, containerHeight);
    var occupied := GetOccupiedSlotIndices(otherChildren, containerWidth, containerHeight);
    var bestSlot := slots[0];
    var bestIndex := ClosestSlotIndex(dropPosition, slots, occupied);
    if bestIndex >= 0 {
      bestSlot := slots[bestIndex];
    }
    p := SlotPoint(bestSlot);
  }

  /** Pigeonhole: fewer indices than slots leave a slot free. */
  lemma {:induction false} FreeSlotExists(occ: set<int>, n: nat)
    requires forall k :: k in occ ==> 0 <= k < n
    requires |occ| < n
    ensures exists k :: 0 <= k < n && k !in occ
  {
    if forall k :: 0 <= k < n ==> k in occ {
      assert Range(n) <= occ;
      SubsetCardinality(Range(n), occ);
      assert false;
    }
  }

  /** The indices `0 .. n-1`. */
  function Range(n: nat): (r: set<int>)
    ensures |r| == n
    ensures forall k :: k in r <==> 0 <= k < n
  {
    if n == 0 then {} else Range(n - 1) + {n - 1}
  }

  /**
   * When the container has more slots than there are other children, the
   * position chosen is a free slot: never one a sibling occupies.
   */
  lemma GridPositionIsFree(dropPosition: Point, siblingNodes: seq<Node>, droppedNodeId: string, w: int, h: int)
    requires |OtherChildren(siblingNodes, droppedNodeId)| < |Slots(w, h)|
    ensures var slots := Slots(w, h);
            exists k :: 0 <= k < |slots| && k !in Occupied(OtherChildren(siblingNodes, droppedNodeId), slots)
                        && GridPosition(dropPosition, siblingNodes, w, h, droppedNodeId) == SlotPoint(slots[k])
  {
    var slots := Slots(w, h);
    var occ := Occupied(OtherChildren(siblingNodes, droppedNodeId), slots);
    FreeSlotExists(occ, |slots|);
    GridPositionIsNearestFree(dropPosition, siblingNodes, w, h, droppedNodeId);
    var k :| IsClosestFree(dropPosition, slots, |slots|, occ, k)
             && GridPosition(dropPosition, siblingNodes, w, h, droppedNodeId) == SlotPoint(slots[k]);
    assert 0 <= k < |slots| && k !in occ;
  }

  // ---------------------------------------------------------------------------
  // redistributeChildren
  // ---------------------------------------------------------------------------

  /** The sort key of the re-flow: top-to-bottom, then left-to-right. */
  function Score(n: Node): int {
    n.position.y * 10000 + n.position.x
  }

  /** The items of `s` in ascending order of `key`. */
  predicate SortedBy<A>(s: seq<A>, key: A -> int) {
    forall i, j :: 0 <= i < j < |s| ==> key(s[i]) <= key(s[j])
  }

  /** Inserts `x` after every element whose key is not greater (keeps equal keys in input order). */
  function InsertByKey<A>(x: A, sorted: seq<A>, key: A -> int): (r: seq<A>)
    ensures |r| == |sorted| + 1
    ensures sorted == [] ==> r == [x]
  {
    if sorted == [] || key(sorted[|sorted| - 1]) <= key(x) then
      sorted + [x]
    else
      InsertByKey(x, sorted[..|sorted| - 1], key) + [sorted[|sorted| - 1]]
  }

  /** Inserting into a sorted list keeps it sorted, and no key rises above the larger of the two ends. */
  lemma {:induction false} InsertByKeySorted<A>(x: A, sorted: seq<A>, key: A -> int)
    requires SortedBy(sorted, key)
    ensures SortedBy(InsertByKey(x, sorted, key), key)
    ensures sorted != [] ==> forall k :: 0 <= k < |sorted| + 1 ==>
              key(InsertByKey(x, sorted, key)[k]) <= Max(key(x), key(sorted[|sorted| - 1]))
  {
    if sorted == [] {
    } else if key(sorted[|sorted| - 1]) <= key(x) {
      SortedAppend(sorted, x, key);
      var r := sorted + [x];
      assert InsertByKey(x, sorted, key) == r;
      forall k | 0 <= k < |r| ensures key(r[k]) <= key(x) {
        if k < |sorted| {
          assert r[k] == sorted[k];
        }
      }
    } else {
      var init, last := sorted[..|sorted| - 1], sorted[|sorted| - 1];
      assert SortedBy(init, key);
      InsertByKeySorted(x, init, key);
      var rest := InsertByKey(x, init, key);
      assert forall k :: 0 <= k < |rest| ==> key(rest[k]) <= key(last) by {
        if init != [] {
          assert key(init[|init| - 1]) <= key(last);
        }
      }
      SortedAppend(rest, last, key);
      var r := rest + [last];
      assert InsertByKey(x, sorted, key) == r;
      forall k | 0 <= k < |r| ensures key(r[k]) <= key(last) {
        if k < |rest| {
          assert r[k] == rest[k];
        }
      }
    }
  }

  /** A sorted list stays sorted when an element at least as large as all of it is appended. */
  lemma SortedAppend<A>(s: seq<A>, x: A, key: A -> int)
    requires SortedBy(s, key)
    requires forall k :: 0 <= k < |s| ==> key(s[k]) <= key(x)
    ensures SortedBy(s + [x], key)
  {
    var r := s + [x];
    forall i, j | 0 <= i < j < |r| ensures key(r[i]) <= key(r[j]) {
      if j < |s| {
        assert r[i] == s[i] && r[j] == s[j];
      } else {
        assert r[i] == s[i] && r[j] == x;
      }
    }
  }

  /** Insertion adds exactly the inserted item. */
  lemma {:induction false} InsertByKeyPermutes<A>(x: A, sorted: seq<A>, key: A -> int)
    ensures multiset(InsertByKey(x, sorted, key)) == multiset(sorted) + multiset{x}
  {
    if sorted != [] && key(sorted[|sorted| - 1]) > key(x) {
      var init, last := sorted[..|sorted| - 1], sorted[|sorted| - 1];
      InsertByKeyPermutes(x, init, key);
      assert sorted == init + [last];
    }
  }

  /** The stable sort `[...xs].sort((a, b) => key(a) - key(b))`, as insertion of each item in turn. */
  function SortByKey<A>(s: seq<A>, key: A -> int): (r: seq<A>)
    ensures |r| == |s|
  {
    if s == [] then []
    else InsertByKey(s[|s| - 1], SortByKey(s[..|s| - 1], key), key)
  }

  /** The sort yields a list sorted by the key. */
  lemma {:induction false} SortByKeySorted<A>(s: seq<A>, key: A -> int)
    ensures SortedBy(SortByKey(s, key), key)
  {
    if s != [] {
      SortByKeySorted(s[..|s| - 1], key);
      InsertByKeySorted(s[|s| - 1], SortByKey(s[..|s| - 1], key), key);
    }
  }

  /** The sort is a permutation of its input. */
  lemma {:induction false} SortByKeyPermutes<A>(s: seq<A>, key: A -> int)
    ensures multiset(SortByKey(s, key)) == multiset(s)
  {
    if s != [] {
      SortByKeyPermutes(s[..|s| - 1], key);
      InsertByKeyPermutes(s[|s| - 1], SortByKey(s[..|s| - 1], key), key);
      assert s == s[..|s| - 1] + [s[|s| - 1]];
    }
  }

  /** The elements of `s` whose key is `v`, in their order in `s`. */
  function WithKey<A>(s: seq<A>, key: A -> int, v: int): seq<A> {
    if s == [] then []
    else WithKey(s[..|s| - 1], key, v) + (if key(s[|s| - 1]) == v then [s[|s| - 1]] else [])
  }

  /** Insertion puts `x` after every element of its own key, and moves no element past another of equal key. */
  lemma {:induction false} InsertByKeyStable<A>(x: A, sorted: seq<A>, key: A -> int, v: int)
    ensures WithKey(InsertByKey(x, sorted, key), key, v) == WithKey(sorted, key, v) + (if key(x) == v then [x] else [])
  {
    if sorted == [] || key(sorted[|sorted| - 1]) <= key(x) {
      assert (sorted + [x])[..|sorted|] == sorted;
    } else {
      var init, last := sorted[..|sorted| - 1], sorted[|sorted| - 1];
      InsertByKeyStable(x, init, key, v);
      var rest := InsertByKey(x, init, key);
      assert (rest + [last])[..|rest|] == rest;
      assert key(x) < key(last);
    }
  }

  /** The sort is stable: for every key, the elements with that key come out in their input order. */
  lemma {:induction false} SortByKeyStable<A>(s: seq<A>, key: A -> int, v: int)
    ensures WithKey(SortByKey(s, key), key, v) == WithKey(s, key, v)
  {
    if s != [] {
      SortByKeyStable(s[..|s| - 1], key, v);
      InsertByKeyStable(s[|s| - 1], SortByKey(s[..|s| - 1], key), key, v);
    }
  }

  /** `[...childNodes].sort((a, b) => score(a) - score(b))`. */
  function SortByScore(s: seq<Node>): (r: seq<Node>)
    ensures |r| == |s|
  {
    SortByKey(s, Score)
  }

  /** The children come out sorted by `y * 10000 + x`, and as a permutation of the input. */
  lemma SortByScoreSortedPermutes(s: seq<Node>)
    ensures SortedBy(SortByScore(s), Score)
    ensures multiset(SortByScore(s)) == multiset(s)
    ensures forall v :: WithKey(SortByScore(s), Score, v) == WithKey(s, Score, v)
  {
    SortByKeySorted(s, Score);
    SortByKeyPermutes(s, Score);
    forall v ensures WithKey(SortByScore(s), Score, v) == WithKey(s, Score, v) {
      SortByKeyStable(s, Score, v);
    }
  }

  /** The positions given to the children, in sorted order: the `k`-th gets cell `k`; a later duplicate id overwrites. */
  function Placement(sorted: seq<Node>, cols: int): (m: map<string, Point>)
    requires cols >= 1
    ensures forall id :: id in m ==> exists k :: 0 <= k < |sorted| && sorted[k].id == id
  {
    if sorted == [] then map[]
    else
      var init := sorted[..|sorted| - 1];
      assert forall k :: 0 <= k < |init| ==> init[k] == sorted[k];
      Placement(init, cols)[sorted[|sorted| - 1].id := CellPosition(|sorted| - 1, cols)]
  }

  /** `redistributeChildren`: sort by position, then give the `k`-th child the `k`-th cell, in or beyond the grid. */
  method RedistributeChildren(childNodes: seq<Node>, newContainerWidth: int, newContainerHeight: int)
    returns (newPositions: map<string, Point>)
    ensures newPositions == Placement(SortByScore(childNodes), Cols(newContainerWidth))
  {
    var slots := GetGridSlots(newContainerWidth, newContainerHeight);
    newPositions := map[];
    var sortedChildren := SortByScore(childNodes);
    LastSlotColumn(newContainerWidth, newContainerHeight);
    ghost var gridCols := Cols(newContainerWidth);
    var index := 0;
    while index < |sortedChildren|
      invariant 0 <= index <= |sortedChildren|
      invariant newPositions == Placement(sortedChildren[..index], gridCols)
    {
      var child := sortedChildren[index];
      var position;
      if index < |slots| {
        position := SlotPoint(slots[index]);
      } else {
        // past the grid: keep counting rows in the same number of columns
        var cols := Max(1, if |slots| > 0 then slots[|slots| - 1].col + 1 else 1);
        var newRow := index / cols;
        var newCol := index % cols;
        position := Point(PaddingLeft + newCol * (ChildWidth + GapX), PaddingTop + newRow * (ChildHeight + GapY));
      }
      assert position == CellPosition(index, gridCols);
      newPositions := newPositions[child.id := position];
      assert sortedChildren[..index + 1][..index] == sortedChildren[..index];
      index := index + 1;
    }
    assert sortedChildren[..index] == sortedChildren;
  }

  /** Distinct places in the row-major order are distinct positions, inside or beyond the grid. */
  lemma CellPositionInjective(j: nat, k: nat, cols: int)
    requires cols >= 1 && j != k
    ensures CellPosition(j, cols) != CellPosition(k, cols)
  {
    assert j == (j / cols) * cols + j % cols;
    assert k == (k / cols) * cols + k % cols;
    assert j % cols != k % cols || j / cols != k / cols;
  }

  /** With distinct ids, the re-flow gives the `k`-th child in sorted order the `k`-th cell. */
  lemma {:induction false} PlacementAt(sorted: seq<Node>, cols: int, k: nat)
    requires cols >= 1 && DistinctIds(sorted) && k < |sorted|
    ensures sorted[k].id in Placement(sorted, cols)
    ensures Placement(sorted, cols)[sorted[k].id] == CellPosition(k, cols)
  {
    var init := sorted[..|sorted| - 1];
    if k < |sorted| - 1 {
      PlacementAt(init, cols, k);
    }
  }

  /** With distinct ids, no two children are re-flowed onto the same position. */
  lemma PlacementDistinct(children: seq<Node>, cols: int, i: nat, j: nat)
    requires cols >= 1 && DistinctIds(SortByScore(children))
    requires i < j < |children|
    ensures var s := SortByScore(children);
            var m := Placement(s, cols);
            s[i].id in m && s[j].id in m && m[s[i].id] != m[s[j].id]
  {
    var s := SortByScore(children);
    PlacementAt(s, cols, i);
    PlacementAt(s, cols, j);
    CellPositionInjective(i, j, cols);
  }

  // ---------------------------------------------------------------------------
  // calculateContainerSize
  // ---------------------------------------------------------------------------

  /** `Math.ceil(a / b)` for a count and a positive column number. */
  function CeilDiv(a: nat, b: int): nat
    requires b >= 1
  {
    (a + b - 1) / b
  }

  /** `CeilDiv(a, b)` is the least `q` with `q * b >= a`. */
  lemma CeilDivIsCeiling(a: nat, b: int)
    requires b >= 1
    ensures CeilDiv(a, b) * b >= a
    ensures a >= 1 ==> (CeilDiv(a, b) - 1) * b < a
  {
    var q := CeilDiv(a, b);
    assert a + b - 1 == q * b + (a + b - 1) % b;
  }

  /** `calculateContainerSize`: the minimum size when empty, otherwise the size of ceil(n/cols) rows of `cols` cells. */
  function CalculateContainerSize(childCount: nat, cols: int := DefaultCols): (r: Size)
    requires cols >= 1
    ensures r.width >= MinContainerWidth && r.height >= MinContainerHeight
    ensures childCount == 0 ==> r == Size(MinContainerWidth, MinContainerHeight)
  {
    if childCount == 0 then Size(MinContainerWidth, MinContainerHeight)
    else
      var rows := CeilDiv(childCount, cols);
      var contentWidth := cols * ChildWidth + (cols - 1) * GapX;
      var width := Max(MinContainerWidth, contentWidth + PaddingLeft + PaddingRight);
      var contentHeight := rows * ChildHeight + (rows - 1) * GapY;
      var height := Max(MinContainerHeight, contentHeight + PaddingTop + PaddingBottom);
      Size(width, height)
  }

  lemma DivMonotone(a: int, b: int, d: int)
    requires d >= 1 && a <= b
    ensures a / d <= b / d
  {
    if a / d > b / d {
      assert a == (a / d) * d + a % d;
      assert b == (b / d) * d + b % d;
      MulAtLeast(a / d - b / d, d);
    }
  }

  /** More children never need a smaller container, in either dimension. */
  lemma ContainerSizeMonotone(n1: nat, n2: nat, cols: int)
    requires cols >= 1 && n1 <= n2
    ensures CalculateContainerSize(n1, cols).width <= CalculateContainerSize(n2, cols).width
    ensures CalculateContainerSize(n1, cols).height <= CalculateContainerSize(n2, cols).height
  {
    if n1 > 0 {
      DivMonotone(n1 + cols - 1, n2 + cols - 1, cols);
    }
  }

  /**
   * A container sized for `n >= 1` children in `cols` columns has a grid of
   * exactly ceil(n/cols) rows of `cols` slots, so it holds all `n`.
   */
  lemma ContainerSizeFits(n: nat, cols: int)
    requires n >= 1 && cols >= 1
    ensures var size := CalculateContainerSize(n, cols);
            && Cols(size.width) == cols
            && Rows(size.height) == CeilDiv(n, cols)
            && |Slots(size.width, size.height)| == CeilDiv(n, cols) * cols >= n
  {
    var size := CalculateContainerSize(n, cols);
    var rows := CeilDiv(n, cols);
    CeilDivIsCeiling(n, cols);
    assert rows >= 1;
    assert size.width == Max(MinContainerWidth, cols * (ChildWidth + GapX) + PaddingLeft);
    DivModUnique(size.width - PaddingLeft - PaddingRight + GapX, ChildWidth + GapX,
                 if cols == 1 then 1 else cols, if cols == 1 then 8 else 0);
    assert size.height == rows * (ChildHeight + GapY) + PaddingTop;
    DivModUnique(size.height - PaddingTop - PaddingBottom + GapY, ChildHeight + GapY, rows, 0);
  }

  /** In the default single column, a container sized for `n >= 1` children has exactly `n` slots, one per row. */
  lemma SingleColumnFits(n: nat)
    requires n >= 1
    ensures var size := CalculateContainerSize(n);
            && |Slots(size.width, size.height)| == n
            && forall k :: 0 <= k < n ==> Slots(size.width, size.height)[k] == SlotAt(k, 1)
  {
    ContainerSizeFits(n, 1);
  }

  /** An empty container still offers one slot. */
  lemma EmptyContainerHasOneSlot()
    ensures var size := CalculateContainerSize(0);
            |Slots(size.width, size.height)| == 1
  {
    var size := CalculateContainerSize(0);
    DivModUnique(size.height - PaddingTop - PaddingBottom + GapY, ChildHeight + GapY, 0, 105);
  }
}
