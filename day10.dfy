/**
 * Day 10: the fewest button presses that turn a machine's indicator lights,
 * all off at first, into the pattern the machine's diagram shows. Pressing a
 * button toggles the lights it names, so a press XORs the button's mask into
 * the lights.
 */
module Day10 {
  import opened Text

  /** A light pattern or a button mask: bit i stands for light i (a `u16`). */
  type Lights = bv16

  /** The one light pattern the distance table has no slot for. */
  const NO_SLOT: Lights := 0xFFFF

  datatype Machine = Machine(indicatorLightPattern: Lights, buttons: seq<Lights>)

  datatype QueueEntry = QueueEntry(lights: Lights, presses: nat)

  datatype Ordering = Less | Equal | Greater

  /** How the search ends: a press count, an exhausted frontier (the source
      panics with "No path to desired state"), or an attempt to index the
      distance table at `NO_SLOT` (the source panics on the array index). */
  datatype Search = Presses(count: nat) | NoPath | IndexOutOfBounds

  // ---------------------------------------------------------------------
  // What a press sequence does

  /** Pressing `button` toggles the lights its mask names. */
  function Toggle(lights: Lights, button: Lights): Lights {
    lights ^ button
  }

  /** The lights after pressing `ps` in order, starting with every light off. */
  function PressAll(ps: seq<Lights>): Lights {
    if ps == [] then 0 else Toggle(PressAll(ps[..|ps| - 1]), ps[|ps| - 1])
  }

  ghost predicate UsesButtons(buttons: seq<Lights>, ps: seq<Lights>) {
    forall i :: 0 <= i < |ps| ==> ps[i] in buttons
  }

  ghost predicate Reachable(buttons: seq<Lights>, lights: Lights) {
    exists ps :: UsesButtons(buttons, ps) && PressAll(ps) == lights
  }

  /** `n` presses show the machine's pattern, and no shorter sequence does. */
  ghost predicate IsFewestPresses(m: Machine, n: nat) {
    && (exists ps :: |ps| == n && UsesButtons(m.buttons, ps) && PressAll(ps) == m.indicatorLightPattern)
    && (forall ps :: UsesButtons(m.buttons, ps) && PressAll(ps) == m.indicatorLightPattern ==> n <= |ps|)
  }

  /** Pressing the same button twice in a row changes nothing. */
  lemma PressTwiceCancels(ps: seq<Lights>, b: Lights)
    ensures PressAll(ps + [b, b]) == PressAll(ps)
  {
    assert (ps + [b, b])[..|ps| + 1] == ps + [b];
    assert (ps + [b])[..|ps|] == ps;
  }

  // ---------------------------------------------------------------------
  // The states reachable within k presses

  function Step(states: set<Lights>, buttons: seq<Lights>): set<Lights> {
    set s, b | s in states && b in buttons :: Toggle(s, b)
  }

  function Within(buttons: seq<Lights>, k: nat): set<Lights> {
    if k == 0 then {0} else Within(buttons, k - 1) + Step(Within(buttons, k - 1), buttons)
  }

  lemma {:induction false} WithinGrows(buttons: seq<Lights>, j: nat, k: nat)
    requires j <= k
    ensures Within(buttons, j) <= Within(buttons, k)
    decreases k
  {
    if j < k {
      WithinGrows(buttons, j, k - 1);
    }
  }

  /** Every state within k presses is shown by some sequence of at most k presses. */
  lemma {:induction false} WithinSound(buttons: seq<Lights>, k: nat, s: Lights)
    requires s in Within(buttons, k)
    ensures exists ps :: |ps| <= k && UsesButtons(buttons, ps) && PressAll(ps) == s
    decreases k
  {
    if k == 0 {
      var none: seq<Lights> := [];
      assert |none| <= k && UsesButtons(buttons, none) && PressAll(none) == s;
    } else if s in Within(buttons, k - 1) {
      WithinSound(buttons, k - 1, s);
    } else {
      var prev := Within(buttons, k - 1);
      StepMember(prev, buttons, s);
      var t, b :| t in prev && b in buttons && s == Toggle(t, b);
      WithinSound(buttons, k - 1, t);
      var ps :| |ps| <= k - 1 && UsesButtons(buttons, ps) && PressAll(ps) == t;
      var qs := ps + [b];
      assert qs[..|qs| - 1] == ps;
      assert |qs| <= k && UsesButtons(buttons, qs) && PressAll(qs) == s;
    }
  }

  /** Every sequence of at most k presses shows a state within k presses. */
  lemma {:induction false} WithinComplete(buttons: seq<Lights>, ps: seq<Lights>, k: nat)
    requires UsesButtons(buttons, ps) && |ps| <= k
    ensures PressAll(ps) in Within(buttons, k)
    decreases |ps|
  {
    if ps == [] {
      WithinGrows(buttons, 0, k);
    } else {
      var init := ps[..|ps| - 1];
      WithinComplete(buttons, init, k - 1);
      assert PressAll(ps) in Step(Within(buttons, k - 1), buttons);
    }
  }

  // ---------------------------------------------------------------------
  // The frontier and the order on its entries

  /** `Ord for QueueEntry`, which compares press counts the other way round
      so that the max-heap hands out the entry with the fewest presses. */
  function Compare(a: QueueEntry, b: QueueEntry): (o: Ordering)
    ensures o == Greater <==> a.presses < b.presses
    ensures o == Less <==> b.presses < a.presses
  {
    if b.presses < a.presses then Less else if b.presses == a.presses then Equal else Greater
  }

  /** `queue[i]` is an entry a max-heap may pop: no entry is greater under `Compare`. */
  predicate IsGreatest(queue: seq<QueueEntry>, i: nat)
    requires i < |queue|
  {
    forall j :: 0 <= j < |queue| ==> Compare(queue[i], queue[j]) != Less
  }

  lemma {:induction false} SomeEntryIsGreatest(queue: seq<QueueEntry>)
    requires queue != []
    ensures exists i :: 0 <= i < |queue| && IsGreatest(queue, i)
  {
    if |queue| == 1 {
      assert IsGreatest(queue, 0);
    } else {
      var init := queue[..|queue| - 1];
      SomeEntryIsGreatest(init);
      var i :| 0 <= i < |init| && IsGreatest(init, i);
      var last := |queue| - 1;
      if queue[last].presses < queue[i].presses {
        assert IsGreatest(queue, last);
      } else {
        assert IsGreatest(queue, i);
      }
    }
  }

  /** The greatest entry under the reversed order has the fewest presses. */
  lemma GreatestHasFewestPresses(queue: seq<QueueEntry>, i: nat)
    requires i < |queue|
    ensures IsGreatest(queue, i) <==> forall j :: 0 <= j < |queue| ==> queue[i].presses <= queue[j].presses
  {
  }

  function Queued(queue: seq<QueueEntry>): set<Lights> {
    set e | e in queue :: e.lights
  }

  lemma RemoveAt(queue: seq<QueueEntry>, i: nat, e: QueueEntry)
    requires i < |queue| && e in queue
    ensures e == queue[i] || e in queue[..i] + queue[i + 1..]
  {
    var j :| 0 <= j < |queue| && queue[j] == e;
    if j < i {
      assert (queue[..i] + queue[i + 1..])[j] == e;
    } else if j > i {
      assert (queue[..i] + queue[i + 1..])[j - 1] == e;
    }
  }

  // ---------------------------------------------------------------------
  // The search invariant

  /** Every queued entry names a state with a free slot, lies in the current
      layer or the next one, and is reachable with its press count. */
  ghost predicate FrontierOk(buttons: seq<Lights>, queue: seq<QueueEntry>, level: nat) {
    forall e :: e in queue ==>
      e.lights != NO_SLOT && level <= e.presses <= level + 1 && e.lights in Within(buttons, e.presses)
  }

  /** Every state within fewer than `level` presses has been visited, and
      every state within `level` presses that has not been visited is queued
      with exactly `level` presses. */
  ghost predicate LayersOk(buttons: seq<Lights>, queue: seq<QueueEntry>, visited: set<Lights>, level: nat) {
    && (level > 0 ==> Within(buttons, level - 1) <= visited)
    && forall s :: s in Within(buttons, level) && s !in visited ==> QueueEntry(s, level) in queue
  }

  /** Each neighbour of a visited state outside `open` is visited or queued. */
  ghost predicate ClosedExcept(buttons: seq<Lights>, queue: seq<QueueEntry>, visited: set<Lights>, open: set<Lights>) {
    forall v, b {:trigger Toggle(v, b)} :: v in visited && v !in open && b in buttons ==> Toggle(v, b) in visited || Toggle(v, b) in Queued(queue)
  }

  ghost predicate SearchInvariant(buttons: seq<Lights>, target: Lights, queue: seq<QueueEntry>, visited: set<Lights>, level: nat) {
    && FrontierOk(buttons, queue, level)
    && LayersOk(buttons, queue, visited, level)
    && ClosedExcept(buttons, queue, visited, {})
    && target !in visited
    && NO_SLOT !in visited
  }

  lemma InitialInvariant(buttons: seq<Lights>, target: Lights)
    ensures SearchInvariant(buttons, target, [QueueEntry(0, 0)], {}, 0)
  {
  }

  lemma StepMember(states: set<Lights>, buttons: seq<Lights>, s: Lights)
    requires s in Step(states, buttons)
    ensures exists t, b :: t in states && b in buttons && s == Toggle(t, b)
  {
  }

  lemma QueuedMember(queue: seq<QueueEntry>, s: Lights)
    requires s in Queued(queue)
    ensures exists e :: e in queue && e.lights == s
  {
  }

  lemma QueuedAppend(queue: seq<QueueEntry>, e: QueueEntry)
    ensures Queued(queue + [e]) == Queued(queue) + {e.lights}
  {
    forall f | f in queue + [e] ensures f in queue || f == e {
    }
  }

  /** Entries with the fewest presses lie in the next layer only when the
      current layer is exhausted, so all of it has been visited. */
  lemma CurrentLayerVisited(buttons: seq<Lights>, queue: seq<QueueEntry>, visited: set<Lights>, level: nat, i: nat)
    requires LayersOk(buttons, queue, visited, level)
    requires i < |queue| && forall j :: 0 <= j < |queue| ==> queue[i].presses <= queue[j].presses
    requires queue[i].presses == level + 1
    ensures Within(buttons, level) <= visited
  {
    forall s | s in Within(buttons, level) ensures s in visited {
    }
  }

  lemma PopFrontier(buttons: seq<Lights>, queue: seq<QueueEntry>, level: nat, i: nat)
    requires FrontierOk(buttons, queue, level)
    requires i < |queue| && forall j :: 0 <= j < |queue| ==> queue[i].presses <= queue[j].presses
    ensures FrontierOk(buttons, queue[..i] + queue[i + 1..], queue[i].presses)
  {
    var rest := queue[..i] + queue[i + 1..];
    assert queue[i] in queue;
    forall f | f in rest
      ensures f.lights != NO_SLOT && queue[i].presses <= f.presses <= queue[i].presses + 1
      ensures f.lights in Within(buttons, f.presses)
    {
      var j :| 0 <= j < |rest| && rest[j] == f;
      var k := if j < i then j else j + 1;
      assert queue[k] == f;
    }
  }

  lemma PopLayers(buttons: seq<Lights>, queue: seq<QueueEntry>, visited: set<Lights>, level: nat, i: nat)
    requires FrontierOk(buttons, queue, level) && LayersOk(buttons, queue, visited, level)
    requires ClosedExcept(buttons, queue, visited, {})
    requires i < |queue| && forall j :: 0 <= j < |queue| ==> queue[i].presses <= queue[j].presses
    ensures LayersOk(buttons, queue[..i] + queue[i + 1..], visited + {queue[i].lights}, queue[i].presses)
  {
    var e := queue[i];
    var rest := queue[..i] + queue[i + 1..];
    var seen := visited + {e.lights};
    var p := e.presses;
    assert e in queue;
    WithinGrows(buttons, level, p);
    if p == level + 1 {
      CurrentLayerVisited(buttons, queue, visited, level, i);
    }
    forall s | s in Within(buttons, p) && s !in seen ensures QueueEntry(s, p) in rest {
      if p == level {
        RemoveAt(queue, i, QueueEntry(s, p));
      } else {
        StepMember(Within(buttons, level), buttons, s);
        var t, b :| t in Within(buttons, level) && b in buttons && s == Toggle(t, b);
        assert s in Queued(queue);
        QueuedMember(queue, s);
        var f :| f in queue && f.lights == s;
        var j :| 0 <= j < |queue| && queue[j] == f;
        assert f == QueueEntry(s, p);
        RemoveAt(queue, i, f);
      }
    }
  }

  lemma PopClosed(buttons: seq<Lights>, queue: seq<QueueEntry>, visited: set<Lights>, i: nat)
    requires ClosedExcept(buttons, queue, visited, {})
    requires i < |queue|
    ensures ClosedExcept(buttons, queue[..i] + queue[i + 1..], visited + {queue[i].lights}, {queue[i].lights})
  {
    var rest := queue[..i] + queue[i + 1..];
    forall v, b | v in visited + {queue[i].lights} && v !in {queue[i].lights} && b in buttons
      ensures Toggle(v, b) in visited + {queue[i].lights} || Toggle(v, b) in Queued(rest)
    {
      if Toggle(v, b) !in visited {
        QueuedMember(queue, Toggle(v, b));
        var f :| f in queue && f.lights == Toggle(v, b);
        RemoveAt(queue, i, f);
      }
    }
  }

  /** Popping an entry with the fewest presses, and visiting its state,
      keeps the frontier and the layers intact and leaves only that state open. */
  lemma AfterPop(buttons: seq<Lights>, target: Lights, queue: seq<QueueEntry>, visited: set<Lights>, level: nat, i: nat)
    requires SearchInvariant(buttons, target, queue, visited, level)
    requires i < |queue| && forall j :: 0 <= j < |queue| ==> queue[i].presses <= queue[j].presses
    ensures var rest, seen, p := queue[..i] + queue[i + 1..], visited + {queue[i].lights}, queue[i].presses;
            && FrontierOk(buttons, rest, p) && LayersOk(buttons, rest, seen, p)
            && ClosedExcept(buttons, rest, seen, {queue[i].lights})
            && queue[i].lights in Within(buttons, p)
            && CountSeen(queue, visited) == CountSeen(rest, visited) + (if queue[i].lights in visited then 1 else 0)
  {
    assert queue[i] in queue;
    PopFrontier(buttons, queue, level, i);
    PopLayers(buttons, queue, visited, level, i);
    PopClosed(buttons, queue, visited, i);
    CountSeenRemove(queue, i, visited);
  }

  /** Queuing an unvisited neighbour of the popped state keeps the invariant. */
  lemma AfterPush(buttons: seq<Lights>, queue: seq<QueueEntry>, visited: set<Lights>, level: nat, from: Lights, b: Lights)
    requires FrontierOk(buttons, queue, level) && LayersOk(buttons, queue, visited, level)
    requires ClosedExcept(buttons, queue, visited, {from})
    requires from in Within(buttons, level) && b in buttons && Toggle(from, b) != NO_SLOT
    ensures var q := queue + [QueueEntry(Toggle(from, b), level + 1)];
            && FrontierOk(buttons, q, level) && LayersOk(buttons, q, visited, level)
            && ClosedExcept(buttons, q, visited, {from})
            && Toggle(from, b) in Queued(q)
  {
    var x := QueueEntry(Toggle(from, b), level + 1);
    var q := queue + [x];
    assert Toggle(from, b) in Step(Within(buttons, level), buttons);
    QueuedAppend(queue, x);
    forall e | e in q
      ensures e.lights != NO_SLOT && level <= e.presses <= level + 1 && e.lights in Within(buttons, e.presses)
    {
      if e != x {
        assert e in queue;
      }
    }
  }

  /** The first `j` neighbours of `from` are visited or queued. */
  ghost predicate NeighboursCovered(buttons: seq<Lights>, from: Lights, j: nat, queue: seq<QueueEntry>, visited: set<Lights>)
    requires j <= |buttons|
  {
    forall k :: 0 <= k < j ==> Toggle(from, buttons[k]) in visited || Toggle(from, buttons[k]) in Queued(queue)
  }

  lemma CoverNext(buttons: seq<Lights>, from: Lights, j: nat, queue: seq<QueueEntry>, visited: set<Lights>, q: seq<QueueEntry>)
    requires j < |buttons| && NeighboursCovered(buttons, from, j, queue, visited)
    requires Queued(queue) <= Queued(q)
    requires Toggle(from, buttons[j]) in visited || Toggle(from, buttons[j]) in Queued(q)
    ensures NeighboursCovered(buttons, from, j + 1, q, visited)
  {
  }

  /** Once all neighbours of `from` are covered, `from` is closed too. */
  lemma CloseFrom(buttons: seq<Lights>, from: Lights, queue: seq<QueueEntry>, visited: set<Lights>)
    requires ClosedExcept(buttons, queue, visited, {from})
    requires NeighboursCovered(buttons, from, |buttons|, queue, visited)
    ensures ClosedExcept(buttons, queue, visited, {})
  {
    forall v, b | v in visited && b in buttons
      ensures Toggle(v, b) in visited || Toggle(v, b) in Queued(queue)
    {
      if v == from {
        var k :| 0 <= k < |buttons| && buttons[k] == b;
      }
    }
  }

  /** When the target is popped, its press count is the fewest possible. */
  lemma FoundIsFewest(buttons: seq<Lights>, target: Lights, queue: seq<QueueEntry>, visited: set<Lights>, level: nat, i: nat)
    requires SearchInvariant(buttons, target, queue, visited, level)
    requires i < |queue| && forall j :: 0 <= j < |queue| ==> queue[i].presses <= queue[j].presses
    requires queue[i].lights == target
    ensures IsFewestPresses(Machine(target, buttons), queue[i].presses)
  {
    var p := queue[i].presses;
    assert queue[i] in queue;
    if p > 0 {
      if p == level + 1 {
        CurrentLayerVisited(buttons, queue, visited, level, i);
      }
      assert Within(buttons, p - 1) <= visited;
    }
    forall ps | UsesButtons(buttons, ps) && PressAll(ps) == target ensures p <= |ps| {
      if |ps| < p {
        WithinComplete(buttons, ps, p - 1);
      }
    }
    WithinSound(buttons, p, target);
  }

  lemma {:induction false} ClosedHoldsAll(buttons: seq<Lights>, visited: set<Lights>, k: nat)
    requires 0 in visited
    requires forall v, b {:trigger Toggle(v, b)} :: v in visited && b in buttons ==> Toggle(v, b) in visited
    ensures Within(buttons, k) <= visited
  {
    if k > 0 {
      ClosedHoldsAll(buttons, visited, k - 1);
    }
  }

  /** An exhausted frontier means that no sequence shows the target. */
  lemma ExhaustedMeansNoPath(buttons: seq<Lights>, target: Lights, visited: set<Lights>, level: nat)
    requires SearchInvariant(buttons, target, [], visited, level)
    ensures !Reachable(buttons, target)
  {
    WithinGrows(buttons, 0, level);
    ClosedHoldsAll(buttons, visited, 0);
    forall ps | UsesButtons(buttons, ps) ensures PressAll(ps) != target {
      WithinComplete(buttons, ps, |ps|);
      ClosedHoldsAll(buttons, visited, |ps|);
    }
  }

  // ---------------------------------------------------------------------
  // Counting, for termination

  /** The state whose slot is `k`. */
  function SlotState(k: nat): Lights
    requires k < 0xFFFF
  {
    k as Lights
  }

  /** The slots whose state has not been visited yet. */
  ghost function Unvisited(visited: set<Lights>): set<nat> {
    set k: nat | k < 0xFFFF && SlotState(k) !in visited
  }

  /** Visiting a new state with a slot frees one slot fewer. */
  lemma VisitShrinks(visited: set<Lights>, l: Lights)
    requires l != NO_SLOT && l !in visited
    ensures Unvisited(visited + {l}) < Unvisited(visited)
  {
    SlotInRange(l);
    assert SlotState(Slot(l)) == l;
    assert Slot(l) in Unvisited(visited) - Unvisited(visited + {l});
  }

  /** Each pop either visits a new state or drops a queued entry whose state
      was visited already, and pushes only entries for unvisited states. */
  lemma PopDecreases(queue: seq<QueueEntry>, i: nat, visited: set<Lights>, q: seq<QueueEntry>)
    requires i < |queue| && queue[i].lights != NO_SLOT
    requires var seen := visited + {queue[i].lights};
             CountSeen(q, seen) == CountSeen(queue[..i] + queue[i + 1..], seen)
    requires CountSeen(queue, visited)
             == CountSeen(queue[..i] + queue[i + 1..], visited) + (if queue[i].lights in visited then 1 else 0)
    ensures var seen := visited + {queue[i].lights};
            || Unvisited(seen) < Unvisited(visited)
            || (Unvisited(seen) == Unvisited(visited) && CountSeen(q, seen) < CountSeen(queue, visited))
  {
    var l := queue[i].lights;
    if l in visited {
      assert visited + {l} == visited;
    } else {
      VisitShrinks(visited, l);
    }
  }

  function CountSeen(queue: seq<QueueEntry>, visited: set<Lights>): nat {
    if queue == [] then 0
    else CountSeen(queue[..|queue| - 1], visited) + (if queue[|queue| - 1].lights in visited then 1 else 0)
  }

  lemma {:induction false} CountSeenAppend(a: seq<QueueEntry>, b: seq<QueueEntry>, visited: set<Lights>)
    ensures CountSeen(a + b, visited) == CountSeen(a, visited) + CountSeen(b, visited)
    decreases |b|
  {
    if b == [] {
      assert a + b == a;
    } else {
      assert (a + b)[..|a + b| - 1] == a + b[..|b| - 1];
      CountSeenAppend(a, b[..|b| - 1], visited);
    }
  }

  lemma CountSeenRemove(queue: seq<QueueEntry>, i: nat, visited: set<Lights>)
    requires i < |queue|
    ensures CountSeen(queue, visited)
         == CountSeen(queue[..i] + queue[i + 1..], visited) + (if queue[i].lights in visited then 1 else 0)
  {
    assert queue == queue[..i] + [queue[i]] + queue[i + 1..];
    CountSeenAppend(queue[..i] + [queue[i]], queue[i + 1..], visited);
    CountSeenAppend(queue[..i], [queue[i]], visited);
    CountSeenAppend(queue[..i], queue[i + 1..], visited);
    assert CountSeen([queue[i]], visited) == (if queue[i].lights in visited then 1 else 0) by {
      assert [queue[i]][..0] == [];
    }
  }

  // ---------------------------------------------------------------------
  // The search

  /** The index of a light pattern in the distance table (`lights as usize`). */
  function Slot(l: Lights): nat {
    l as int
  }

  /** Every state but `NO_SLOT` has a slot in the distance table. */
  lemma SlotInRange(l: Lights)
    requires l != NO_SLOT
    ensures Slot(l) < 0xFFFF
  {
    assert (l as int) as Lights == l;
    assert (0xFFFF as int) as Lights == NO_SLOT;
  }

  /** Distinct states have distinct slots. */
  lemma SlotsDistinct(a: Lights, b: Lights)
    requires a != b
    ensures Slot(a) != Slot(b)
  {
    assert (a as int) as Lights == a;
    assert (b as int) as Lights == b;
  }

  /** `distances` has a filled slot for exactly the visited states. */
  ghost predicate Recorded(slots: seq<Option<nat>>, visited: set<Lights>) {
    && |slots| == 0xFFFF
    && forall s: Lights {:trigger Slot(s)} :: s != NO_SLOT ==> Slot(s) < |slots| && (slots[Slot(s)].Some? <==> s in visited)
  }

  lemma InitiallyRecorded(slots: seq<Option<nat>>)
    requires |slots| == 0xFFFF && forall k :: 0 <= k < |slots| ==> slots[k] == None
    ensures Recorded(slots, {})
  {
    forall s: Lights | s != NO_SLOT ensures Slot(s) < |slots| && slots[Slot(s)].None? {
      SlotInRange(s);
    }
  }

  lemma RecordOne(slots: seq<Option<nat>>, visited: set<Lights>, l: Lights, x: nat, s: Lights)
    requires Recorded(slots, visited) && l != NO_SLOT && s != NO_SLOT
    requires Slot(l) < |slots| && Slot(s) < |slots|
    ensures slots[Slot(l) := Some(x)][Slot(s)].Some? <==> s in visited + {l}
  {
    if s != l {
      SlotsDistinct(s, l);
      assert slots[Slot(l) := Some(x)][Slot(s)] == slots[Slot(s)];
    }
  }

  /** Filling the slot of a popped state keeps the table and the visited set in step. */
  lemma RecordPopped(slots: seq<Option<nat>>, visited: set<Lights>, l: Lights, x: nat)
    requires Recorded(slots, visited) && l != NO_SLOT && Slot(l) < |slots|
    ensures Recorded(slots[Slot(l) := Some(x)], visited + {l})
  {
    forall s: Lights | s != NO_SLOT
      ensures Slot(s) < |slots| && (slots[Slot(l) := Some(x)][Slot(s)].Some? <==> s in visited + {l})
    {
      SlotInRange(s);
      RecordOne(slots, visited, l, x, s);
    }
  }

  /** The loop over the buttons of `Machine::shortest_button_sequence`: queue
      each neighbour of the popped state whose slot is still empty. It stops
      early, with `outOfBounds`, when a neighbour is the state without a slot. */
  method PushNeighbours(buttons: seq<Lights>, distances: array<Option<nat>>, entry: QueueEntry, queue: seq<QueueEntry>,
                        ghost visited: set<Lights>)
    returns (q: seq<QueueEntry>, outOfBounds: bool)
    requires Recorded(distances[..], visited)
    requires FrontierOk(buttons, queue, entry.presses) && LayersOk(buttons, queue, visited, entry.presses)
    requires ClosedExcept(buttons, queue, visited, {entry.lights})
    requires entry.lights in visited && entry.lights in Within(buttons, entry.presses)
    ensures outOfBounds ==> Reachable(buttons, NO_SLOT)
    ensures distances[..] == old(distances[..])
    ensures !outOfBounds ==> && FrontierOk(buttons, q, entry.presses) && LayersOk(buttons, q, visited, entry.presses)
                             && ClosedExcept(buttons, q, visited, {})
                             && CountSeen(q, visited) == CountSeen(queue, visited)
  {
    ghost var from, level := entry.lights, entry.presses;
    q := queue;
    for j := 0 to |buttons|
      invariant FrontierOk(buttons, q, level) && LayersOk(buttons, q, visited, level)
      invariant ClosedExcept(buttons, q, visited, {from})
      invariant NeighboursCovered(buttons, from, j, q, visited)
      invariant CountSeen(q, visited) == CountSeen(queue, visited)
    {
      var lights := Toggle(entry.lights, buttons[j]);
      if lights == NO_SLOT {
        assert lights in Step(Within(buttons, level), buttons);
        WithinSound(buttons, level + 1, lights);
        return q, true;
      }
      SlotInRange(lights);
      if distances[Slot(lights)].None? {
        var x := QueueEntry(lights, entry.presses + 1);
        AfterPush(buttons, q, visited, level, from, buttons[j]);
        QueuedAppend(q, x);
        CoverNext(buttons, from, j, q, visited, q + [x]);
        CountSeenAppend(q, [x], visited);
        assert [x][..0] == [];
        q := q + [x];
      } else {
        CoverNext(buttons, from, j, q, visited, q);
      }
    }
    CloseFrom(buttons, from, q, visited);
    outOfBounds := false;
  }

  /** `Machine::shortest_button_sequence`: a uniform-cost search over light
      patterns from all-off, recording a state when it is popped and queuing
      each neighbour whose slot is still empty. */
  method ShortestButtonSequence(m: Machine) returns (r: Search)
    ensures m.indicatorLightPattern == 0 ==> r == Presses(0)
    ensures r.Presses? ==> IsFewestPresses(m, r.count)
    ensures r.NoPath? ==> !Reachable(m.buttons, m.indicatorLightPattern)
    ensures r.IndexOutOfBounds? ==> Reachable(m.buttons, NO_SLOT)
  {
    var target, buttons := m.indicatorLightPattern, m.buttons;
    var distances := new Option<nat>[0xFFFF](_ => None);
    var queue := [QueueEntry(0, 0)];
    ghost var visited: set<Lights> := {};
    ghost var level: nat := 0;
    InitialInvariant(buttons, target);
    InitiallyRecorded(distances[..]);
    while queue != []
      invariant SearchInvariant(buttons, target, queue, visited, level)
      invariant Recorded(distances[..], visited)
      invariant target == 0 ==> queue == [QueueEntry(0, 0)]
      decreases Unvisited(visited), CountSeen(queue, visited)
    {
      SomeEntryIsGreatest(queue);
      var i :| 0 <= i < |queue| && IsGreatest(queue, i);
      GreatestHasFewestPresses(queue, i);
      var entry := queue[i];
      assert entry in queue;
      ghost var slotsBefore, queueBefore, visitedBefore := distances[..], queue, visited;
      SlotInRange(entry.lights);
      distances[Slot(entry.lights)] := Some(entry.presses);
      if entry.lights == target {
        FoundIsFewest(buttons, target, queue, visited, level, i);
        return Presses(entry.presses);
      }
      assert distances[..] == slotsBefore[Slot(entry.lights) := Some(entry.presses)];
      RecordPopped(slotsBefore, visited, entry.lights, entry.presses);
      AfterPop(buttons, target, queue, visited, level, i);
      queue := queue[..i] + queue[i + 1..];
      visited := visited + {entry.lights};
      level := entry.presses;
      var outOfBounds;
      queue, outOfBounds := PushNeighbours(buttons, distances, entry, queue, visited);
      if outOfBounds {
        return IndexOutOfBounds;
      }
      PopDecreases(queueBefore, i, visitedBefore, queue);
    }
    ExhaustedMeansNoPath(buttons, target, visited, level);
    return NoPath;
  }

  // ---------------------------------------------------------------------
  // Reading a machine description: `[.##.] (3) (1,3) (2) {3,5,4,7}`

  /** Whether light `i` is on in `v`. */
  predicate LightOn(v: Lights, i: nat)
    requires i < 16
  {
    (v >> i) & 1 == 1
  }

  /** Shifting the lights read so far up by one and putting `bit` in as
      light 0. */
  lemma ShiftInBit(w: Lights, bit: Lights, i: nat)
    requires bit == 0 || bit == 1
    requires i < 16
    ensures LightOn((w << 1) | bit, i) <==> if i == 0 then bit == 1 else LightOn(w, i - 1)
  {
    if i == 0 {} else if i == 1 {} else if i == 2 {} else if i == 3 {} else if i == 4 {}
    else if i == 5 {} else if i == 6 {} else if i == 7 {} else if i == 8 {} else if i == 9 {}
    else if i == 10 {} else if i == 11 {} else if i == 12 {} else if i == 13 {} else if i == 14 {}
    else {}
  }

  lemma ShiftInBits(w: Lights, bit: Lights, v: Lights)
    requires bit == 0 || bit == 1
    requires v == (w << 1) | bit
    ensures forall i :: 0 <= i < 16 ==> (LightOn(v, i) <==> if i == 0 then bit == 1 else LightOn(w, i - 1))
  {
    forall i | 0 <= i < 16
      ensures LightOn(v, i) <==> if i == 0 then bit == 1 else LightOn(w, i - 1)
    {
      ShiftInBit(w, bit, i);
    }
  }

  predicate IsDiagram(d: string) {
    forall k :: 0 <= k < |d| ==> d[k] == '.' || d[k] == '#'
  }

  /** The fold of `indicator_lights_from_str` over the diagram read from its
      last character: each character shifts the lights read so far up by one,
      so the first character ends up as light 0 and lights beyond the
      sixteenth are shifted out. */
  function LightsOf(d: string): (r: Result<Lights>)
    ensures !r.Panic?
    ensures r.Ok? <==> IsDiagram(d)
    ensures r.Ok? ==> forall i :: 0 <= i < 16 ==> (LightOn(r.value, i) <==> i < |d| && d[i] == '#')
  {
    if d == [] then Ok(0)
    else
      var rest :- LightsOf(d[1..]);
      var bit: Lights := if d[0] == '#' then 1 else 0;
      var v := (rest << 1) | bit;
      ShiftInBits(rest, bit, v);
      if d[0] == '.' || d[0] == '#' then Ok(v) else Err
  }

  /** `Machine::indicator_lights_from_str`: a diagram between `[` and `]`;
      light i is on exactly when the diagram's character i is `#`. */
  function IndicatorLightsFromStr(s: string): (r: Result<Lights>)
    ensures !r.Panic?
    ensures r.Ok? <==> |s| >= 2 && s[0] == '[' && s[|s| - 1] == ']' && IsDiagram(s[1..|s| - 1])
    ensures r.Ok? ==> forall i :: 0 <= i < 16 ==> (LightOn(r.value, i) <==> i < |s| - 2 && s[i + 1] == '#')
  {
    if s == [] || s[0] != '[' then Err
    else
      var inner := s[1..];
      if inner == [] || inner[|inner| - 1] != ']' then Err
      else
        assert inner[..|inner| - 1] == s[1..|s| - 1];
        LightsOf(inner[..|inner| - 1])
  }

  /** `1 << p`: the mask with light `p` alone on. */
  function LightMask(p: nat): Lights
    requires p < 16
  {
    1 << p
  }

  lemma SingleLight(p: nat)
    requires p < 16
    ensures forall i :: 0 <= i < 16 ==> (LightOn(LightMask(p), i) <==> i == p)
  {
    if p == 0 {} else if p == 1 {} else if p == 2 {} else if p == 3 {} else if p == 4 {}
    else if p == 5 {} else if p == 6 {} else if p == 7 {} else if p == 8 {} else if p == 9 {}
    else if p == 10 {} else if p == 11 {} else if p == 12 {} else if p == 13 {} else if p == 14 {}
    else {}
  }

  lemma UnionBit(a: Lights, b: Lights, i: nat)
    requires i < 16
    ensures LightOn(a | b, i) <==> LightOn(a, i) || LightOn(b, i)
  {
    if i == 0 {} else if i == 1 {} else if i == 2 {} else if i == 3 {} else if i == 4 {}
    else if i == 5 {} else if i == 6 {} else if i == 7 {} else if i == 8 {} else if i == 9 {}
    else if i == 10 {} else if i == 11 {} else if i == 12 {} else if i == 13 {} else if i == 14 {}
    else {}
  }

  /** `acc | 1 << p`: light `p` switched on in `acc`. */
  function WithLight(acc: Lights, p: nat): (r: Lights)
    requires p < 16
    ensures forall i :: 0 <= i < 16 ==> (LightOn(r, i) <==> LightOn(acc, i) || i == p)
  {
    WithLightBits(acc, p, acc | LightMask(p));
    acc | LightMask(p)
  }

  lemma WithLightBits(acc: Lights, p: nat, v: Lights)
    requires p < 16 && v == acc | LightMask(p)
    ensures forall i :: 0 <= i < 16 ==> (LightOn(v, i) <==> LightOn(acc, i) || i == p)
  {
    SingleLight(p);
    forall i | 0 <= i < 16 ensures LightOn(v, i) <==> LightOn(acc, i) || LightOn(LightMask(p), i) {
      UnionBit(acc, LightMask(p), i);
    }
  }

  /** An entry of a button, parsed as a `u16`, that names a light: shifting
      1 by 16 or more would overflow the `u16`. */
  predicate NamesLight(e: Result<nat>) {
    e.Ok? && e.value < 16
  }

  /** The fold of `button_from_str` over the parsed entries, left to right:
      an entry that is not a `u16` is an error, one that overflows the shift
      a panic, and the first such entry decides the outcome. */
  function ButtonMask(acc: Lights, entries: seq<Result<nat>>): Result<Lights>
    decreases |entries|
  {
    if entries == [] then Ok(acc)
    else if entries[0].Err? || entries[0].Panic? then Err
    else if entries[0].value >= 16 then Panic
    else ButtonMask(WithLight(acc, entries[0].value), entries[1..])
  }

  /** The mask succeeds exactly when every entry names a light, and then it
      has exactly the lights of `acc` and the named ones on. */
  lemma {:induction false} ButtonMaskLights(acc: Lights, entries: seq<Result<nat>>)
    ensures ButtonMask(acc, entries).Ok? <==> forall k :: 0 <= k < |entries| ==> NamesLight(entries[k])
    ensures ButtonMask(acc, entries).Ok? ==> forall i :: 0 <= i < 16 ==>
              (LightOn(ButtonMask(acc, entries).value, i) <==> LightOn(acc, i) || Ok(i) in entries)
    decreases |entries|
  {
    if entries != [] && NamesLight(entries[0]) {
      var tail := entries[1..];
      ButtonMaskLights(WithLight(acc, entries[0].value), tail);
      assert entries == [entries[0]] + tail;
    }
  }

  /** A failing mask fails as its first entry that names no light does. */
  lemma {:induction false} ButtonMaskFailure(acc: Lights, entries: seq<Result<nat>>)
    requires !ButtonMask(acc, entries).Ok?
    ensures exists k :: && 0 <= k < |entries| && !NamesLight(entries[k])
                        && (forall j :: 0 <= j < k ==> NamesLight(entries[j]))
                        && (ButtonMask(acc, entries).Err? <==> !entries[k].Ok?)
    decreases |entries|
  {
    if NamesLight(entries[0]) {
      var tail := entries[1..];
      ButtonMaskFailure(WithLight(acc, entries[0].value), tail);
      var k :| && 0 <= k < |tail| && !NamesLight(tail[k])
                && (forall j :: 0 <= j < k ==> NamesLight(tail[j]))
                && (ButtonMask(acc, entries).Err? <==> !tail[k].Ok?);
      assert forall j :: 1 <= j < k + 1 ==> entries[j] == tail[j - 1];
      assert entries[k + 1] == tail[k];
    }
  }

  /** The entries of a button written `(a,b,..)`, each parsed as a `u16`. */
  function ButtonEntries(s: string): (es: seq<Result<nat>>)
    requires |s| >= 2
  {
    var pieces := Split(s[1..|s| - 1], ',');
    seq(|pieces|, k requires 0 <= k < |pieces| => ParseUnsigned(pieces[k], U16_LIMIT))
  }

  /** `Machine::button_from_str`: comma-separated light numbers between `(`
      and `)`. */
  function ButtonFromStr(s: string): Result<Lights> {
    if s == [] || s[0] != '(' then Err
    else if s[1..] == [] || s[|s| - 1] != ')' then Err
    else ButtonMask(0, ButtonEntries(s))
  }

  /** A button parses exactly when it is parenthesised and every entry names a
      light, and its mask then has exactly the named lights on. */
  lemma ButtonLights(s: string)
    ensures ButtonFromStr(s).Ok? <==>
              && |s| >= 2 && s[0] == '(' && s[|s| - 1] == ')'
              && forall k :: 0 <= k < |ButtonEntries(s)| ==> NamesLight(ButtonEntries(s)[k])
    ensures ButtonFromStr(s).Ok? ==> forall i :: 0 <= i < 16 ==>
              (LightOn(ButtonFromStr(s).value, i) <==> Ok(i) in ButtonEntries(s))
  {
    if |s| >= 2 && s[0] == '(' && s[|s| - 1] == ')' {
      ButtonMaskLights(0, ButtonEntries(s));
      assert forall i :: 0 <= i < 16 ==> !LightOn(0, i);
    }
  }

  /** `Machine::from_str`: whitespace-separated words, the indicator diagram
      first, the joltage requirements last (read and discarded), the buttons
      in between. */
  function MachineFromStr(s: string): Result<Machine> {
    MachineFromWords(SplitWhitespace(s))
  }

  function MachineFromWords(words: seq<string>): Result<Machine> {
    if words == [] then Err
    else
      var pattern :- IndicatorLightsFromStr(words[0]);
      if |words| == 1 then Panic
      else
        var buttons :- Collect(ButtonsFromWords(Middle(words)));
        Ok(Machine(pattern, buttons))
  }

  /** The words between the first and the last. */
  function Middle(words: seq<string>): seq<string> {
    if |words| >= 2 then words[1..|words| - 1] else []
  }

  function ButtonsFromWords(words: seq<string>): (rs: seq<Result<Lights>>)
    ensures |rs| == |words| && forall k :: 0 <= k < |words| ==> rs[k] == ButtonFromStr(words[k])
  {
    seq(|words|, k requires 0 <= k < |words| => ButtonFromStr(words[k]))
  }

  /** How `Machine::from_str` treats each shape of input: no words is an
      error, an unreadable diagram is an error, a lone diagram is a panic,
      and otherwise the machine has the diagram's pattern and, in order, the
      buttons between the first and the last word, or fails as the first
      unreadable button does. */
  lemma MachineFromStrCases(s: string)
    ensures var words := SplitWhitespace(s);
            && (words == [] ==> MachineFromStr(s).Err?)
            && (words != [] && !IndicatorLightsFromStr(words[0]).Ok? ==> MachineFromStr(s).Err?)
            && (|words| == 1 && IndicatorLightsFromStr(words[0]).Ok? ==> MachineFromStr(s).Panic?)
            && (|words| >= 2 && IndicatorLightsFromStr(words[0]).Ok? ==> WordsParsed(words))
  {
    WordsCases(SplitWhitespace(s));
  }

  /** With a readable diagram and a last word, the machine is read exactly
      when every button in between is, and fails as the first one that is
      not. */
  ghost predicate WordsParsed(words: seq<string>)
    requires |words| >= 2
  {
    var r, middle := MachineFromWords(words), Middle(words);
    && (r.Ok? <==> forall k :: 0 <= k < |middle| ==> ButtonFromStr(middle[k]).Ok?)
    && (r.Ok? ==> && IndicatorLightsFromStr(words[0]) == Ok(r.value.indicatorLightPattern)
                  && |r.value.buttons| == |middle|
                  && forall k :: 0 <= k < |middle| ==> ButtonFromStr(middle[k]) == Ok(r.value.buttons[k]))
    && (!r.Ok? ==> exists k :: && 0 <= k < |middle| && !ButtonFromStr(middle[k]).Ok?
                               && (forall j :: 0 <= j < k ==> ButtonFromStr(middle[j]).Ok?)
                               && (r.Err? <==> ButtonFromStr(middle[k]).Err?))
  }

  lemma WordsCases(words: seq<string>)
    ensures && (words == [] ==> MachineFromWords(words).Err?)
            && (words != [] && !IndicatorLightsFromStr(words[0]).Ok? ==> MachineFromWords(words).Err?)
            && (|words| == 1 && IndicatorLightsFromStr(words[0]).Ok? ==> MachineFromWords(words).Panic?)
            && (|words| >= 2 && IndicatorLightsFromStr(words[0]).Ok? ==> WordsParsed(words))
  {
    if |words| >= 2 && IndicatorLightsFromStr(words[0]).Ok? {
      var rs := ButtonsFromWords(Middle(words));
      Collected(rs);
      if !Collect(rs).Ok? {
        var k :| && 0 <= k < |rs| && !rs[k].Ok?
                  && (forall j :: 0 <= j < k ==> rs[j].Ok?)
                  && Collect(rs) == rs[k].PropagateFailure();
        assert MachineFromWords(words).Err? <==> rs[k].Err?;
      }
    }
  }

  // ---------------------------------------------------------------------
  // Writing a machine description, the inverse of reading one

  function DiagramText(d: string): string {
    "[" + d + "]"
  }

  function Decimals(ls: seq<nat>): (ds: seq<string>)
    ensures |ds| == |ls| && forall k :: 0 <= k < |ls| ==> ds[k] == Decimal(ls[k])
  {
    seq(|ls|, k requires 0 <= k < |ls| => Decimal(ls[k]))
  }

  /** A button naming the lights `ls`, such as `(1,3)`. */
  function ButtonText(ls: seq<nat>): string
    requires ls != []
  {
    "(" + Join(Decimals(ls), ',') + ")"
  }

  function ButtonTexts(lists: seq<seq<nat>>): (ws: seq<string>)
    requires forall k :: 0 <= k < |lists| ==> lists[k] != []
    ensures |ws| == |lists| && forall k :: 0 <= k < |lists| ==> ws[k] == ButtonText(lists[k])
  {
    seq(|lists|, k requires 0 <= k < |lists| && lists[k] != [] => ButtonText(lists[k]))
  }

  /** A machine line: the diagram, the buttons, then the joltage word. */
  function MachineText(d: string, lists: seq<seq<nat>>, joltage: string): string
    requires forall k :: 0 <= k < |lists| ==> lists[k] != []
  {
    JoinWords([DiagramText(d)] + ButtonTexts(lists) + [joltage])
  }

  predicate ListsLights(lists: seq<seq<nat>>) {
    forall k :: 0 <= k < |lists| ==> lists[k] != [] && forall j :: 0 <= j < |lists[k]| ==> lists[k][j] < 16
  }

  /** Reading a written diagram gives its lights back. */
  lemma DiagramRoundTrip(d: string)
    requires IsDiagram(d)
    ensures IndicatorLightsFromStr(DiagramText(d)).Ok?
    ensures forall i :: 0 <= i < 16 ==>
              (LightOn(IndicatorLightsFromStr(DiagramText(d)).value, i) <==> i < |d| && d[i] == '#')
  {
    var s := DiagramText(d);
    assert s[1..|s| - 1] == d;
    assert forall i :: 0 <= i < |d| ==> s[i + 1] == d[i];
  }

  /** Reading a written button gives a mask with exactly its lights on. */
  lemma ButtonRoundTrip(ls: seq<nat>)
    requires ls != [] && forall j :: 0 <= j < |ls| ==> ls[j] < 16
    ensures ButtonFromStr(ButtonText(ls)).Ok?
    ensures forall i :: 0 <= i < 16 ==> (LightOn(ButtonFromStr(ButtonText(ls)).value, i) <==> i in ls)
  {
    var s := ButtonText(ls);
    var ds := Decimals(ls);
    assert s[1..|s| - 1] == Join(ds, ',');
    forall k | 0 <= k < |ds| ensures ',' !in ds[k] {
      assert AllDigits(ds[k]);
    }
    SplitJoin(ds, ',');
    var es := ButtonEntries(s);
    forall k | 0 <= k < |ls| ensures es[k] == Ok(ls[k]) {
      ParseDecimal(ls[k], U16_LIMIT);
    }
    ButtonLights(s);
    forall i | 0 <= i < 16 ensures Ok(i) in es <==> i in ls {
      if i in ls {
        var k :| 0 <= k < |ls| && ls[k] == i;
        assert es[k] == Ok(i);
      }
    }
  }

  lemma ButtonTextIsWord(ls: seq<nat>)
    requires ls != []
    ensures IsWord(ButtonText(ls))
  {
    var ds := Decimals(ls);
    forall i, k | 0 <= i < |ds| && 0 <= k < |ds[i]| ensures !IsWhitespace(ds[i][k]) {
      assert IsDigit(ds[i][k]);
    }
    JoinNoWhitespace(ds, ',');
    var j := Join(ds, ',');
    assert forall k :: 0 <= k < |j| ==> ButtonText(ls)[k + 1] == j[k];
  }

  /** Reading a written machine gives back its diagram's pattern and its
      buttons, in order, whatever its joltage word says. */
  lemma MachineRoundTrip(d: string, lists: seq<seq<nat>>, joltage: string)
    requires IsDiagram(d) && ListsLights(lists) && IsWord(joltage)
    ensures var r := MachineFromStr(MachineText(d, lists, joltage));
            && r.Ok?
            && (forall i :: 0 <= i < 16 ==> (LightOn(r.value.indicatorLightPattern, i) <==> i < |d| && d[i] == '#'))
            && |r.value.buttons| == |lists|
            && forall k, i :: 0 <= k < |lists| && 0 <= i < 16 ==> (LightOn(r.value.buttons[k], i) <==> i in lists[k])
  {
    var buttons := ButtonTexts(lists);
    var words := [DiagramText(d)] + buttons + [joltage];
    forall k | 0 <= k < |lists| ensures IsWord(buttons[k]) && ButtonFromStr(buttons[k]).Ok? {
      ButtonTextIsWord(lists[k]);
      ButtonRoundTrip(lists[k]);
    }
    assert forall i :: 0 <= i < |DiagramText(d)| ==> !IsWhitespace(DiagramText(d)[i]);
    assert forall k :: 0 <= k < |words| ==> IsWord(words[k]);
    SplitJoinWords(words);
    DiagramRoundTrip(d);
    WordsCases(words);
    assert Middle(words) == buttons;
    var m := MachineFromStr(MachineText(d, lists, joltage)).value;
    forall k, i | 0 <= k < |lists| && 0 <= i < 16 ensures LightOn(m.buttons[k], i) <==> i in lists[k] {
      assert words[k + 1] == buttons[k];
      ButtonRoundTrip(lists[k]);
    }
  }

  // ---------------------------------------------------------------------
  // The answer for a whole input

  /** The fewest presses of a machine are unique. */
  lemma FewestPressesUnique(m: Machine, a: nat, b: nat)
    requires IsFewestPresses(m, a) && IsFewestPresses(m, b)
    ensures a == b
  {
    var pa :| |pa| == a && UsesButtons(m.buttons, pa) && PressAll(pa) == m.indicatorLightPattern;
    var pb :| |pb| == b && UsesButtons(m.buttons, pb) && PressAll(pb) == m.indicatorLightPattern;
  }

  /** Buttons that leave light 15 alone never switch it on, so a machine with
      at most fifteen lights never reaches the pattern without a slot. */
  lemma {:induction false} HighLightStaysOff(buttons: seq<Lights>, ps: seq<Lights>)
    requires forall k :: 0 <= k < |buttons| ==> !LightOn(buttons[k], 15)
    requires UsesButtons(buttons, ps)
    ensures !LightOn(PressAll(ps), 15)
    ensures PressAll(ps) != NO_SLOT
  {
    if ps != [] {
      HighLightStaysOff(buttons, ps[..|ps| - 1]);
      assert ps[|ps| - 1] in buttons;
    }
  }

  /** The search can run out of the distance table only if light 15 is used. */
  lemma NoSlotNeedsHighLight(buttons: seq<Lights>)
    requires forall k :: 0 <= k < |buttons| ==> !LightOn(buttons[k], 15)
    ensures !Reachable(buttons, NO_SLOT)
  {
    forall ps | UsesButtons(buttons, ps) ensures PressAll(ps) != NO_SLOT {
      HighLightStaysOff(buttons, ps);
    }
  }

  /** A machine the search handles: its pattern can be shown, and the
      pattern without a slot in the distance table cannot. */
  ghost predicate Configurable(m: Machine) {
    Reachable(m.buttons, m.indicatorLightPattern) && !Reachable(m.buttons, NO_SLOT)
  }

  /** The outcomes of reading each line as a machine. */
  function ParseLines(lines: seq<string>): (ms: seq<Result<Machine>>)
    ensures |ms| == |lines| && forall k :: 0 <= k < |lines| ==> ms[k] == MachineFromStr(lines[k])
  {
    seq(|lines|, k requires 0 <= k < |lines| => MachineFromStr(lines[k]))
  }

  /** Each of the first `|counts|` outcomes is a machine whose fewest
      presses are the matching count. */
  ghost predicate Solved(machines: seq<Result<Machine>>, counts: seq<nat>) {
    && |counts| <= |machines|
    && forall j :: 0 <= j < |counts| ==> machines[j].Ok? && IsFewestPresses(machines[j].value, counts[j])
  }

  lemma SolvedNext(machines: seq<Result<Machine>>, counts: seq<nat>, n: nat)
    requires Solved(machines, counts) && |counts| < |machines|
    requires machines[|counts|].Ok? && IsFewestPresses(machines[|counts|].value, n)
    ensures Solved(machines, counts + [n])
  {
  }

  /** A sum of the outcomes `machines` is the sum of the fewest presses of
      every machine, counted in `counts`. */
  ghost predicate SumOutcome(machines: seq<Result<Machine>>, r: Result<nat>, counts: seq<nat>) {
    r.Ok? ==> |counts| == |machines| && Solved(machines, counts) && r.value == Sum(counts)
  }

  /** What else summing the outcomes `machines` in order may give: the
      failure of the first outcome that is not a machine (an error stays an
      error), or a panic at a machine the search fails on. The sum is
      always reached when every machine is `Configurable`. */
  ghost predicate FailureOutcome(machines: seq<Result<Machine>>, r: Result<nat>) {
    && (r.Err? ==> exists k :: 0 <= k < |machines| && machines[k].Err? && forall j :: 0 <= j < k ==> machines[j].Ok?)
    && (r.Panic? ==> exists k :: && 0 <= k < |machines| && (forall j :: 0 <= j < k ==> machines[j].Ok?)
                                 && (machines[k].Panic? || (machines[k].Ok? && !Configurable(machines[k].value))))
    && ((forall k :: 0 <= k < |machines| ==> machines[k].Ok? && Configurable(machines[k].value)) ==> r.Ok?)
  }

  /** The summing loop of `min_button_presses_to_configure` over the lines'
      outcomes, in order. */
  method SumFewest(machines: seq<Result<Machine>>) returns (r: Result<nat>, ghost counts: seq<nat>)
    ensures FailureOutcome(machines, r)
    ensures SumOutcome(machines, r, counts)
  {
    var total := 0;
    counts := [];
    for k := 0 to |machines|
      invariant |counts| == k && Solved(machines, counts)
      invariant total == Sum(counts)
    {
      var parsed := machines[k];
      if parsed.Err? {
        return Err, counts;
      } else if parsed.Panic? {
        return Panic, counts;
      }
      var search := ShortestButtonSequence(parsed.value);
      if !search.Presses? {
        return Panic, counts;
      }
      SolvedNext(machines, counts, search.count);
      SumAppend(counts, [search.count]);
      total := total + search.count;
      counts := counts + [search.count];
    }
    r := Ok(total);
  }

  /** `min_button_presses_to_configure`: the sum over the input's lines of
      the fewest presses of each line's machine. */
  method MinButtonPressesToConfigure(input: string) returns (r: Result<nat>, ghost counts: seq<nat>)
    ensures FailureOutcome(ParseLines(Lines(input)), r)
    ensures SumOutcome(ParseLines(Lines(input)), r, counts)
  {
    r, counts := SumFewest(ParseLines(Lines(input)));
  }

  // ---------------------------------------------------------------------
  // The unit tests' machines

  lemma DiagramExample()
    ensures IndicatorLightsFromStr("[.##.]") == Ok(6)
  {
    var d := ".##.";
    assert "[.##.]"[1..][..|"[.##.]"[1..]| - 1] == d;
    assert d[1..] == "##." && d[2..] == "#." && d[3..] == "." && d[4..] == "";
    assert LightsOf(".") == Ok(0);
    assert LightsOf("#.") == Ok(1);
    assert LightsOf("##.") == Ok(3);
    assert LightsOf(d) == Ok(6);
  }

  /** What a press sequence of length at most three does. */
  lemma {:induction false} ShortPresses(ps: seq<Lights>)
    ensures |ps| == 0 ==> PressAll(ps) == 0
    ensures |ps| == 1 ==> PressAll(ps) == ps[0]
    ensures |ps| == 2 ==> PressAll(ps) == ps[0] ^ ps[1]
    ensures |ps| == 3 ==> PressAll(ps) == ps[0] ^ ps[1] ^ ps[2]
    decreases |ps|
  {
    if 1 <= |ps| <= 3 {
      var init := ps[..|ps| - 1];
      ShortPresses(init);
      if |ps| >= 2 {
        assert init[..|init| - 1] == ps[..|ps| - 2];
        if |ps| == 3 {
          assert init[..|init| - 1][..1] == ps[..1];
        }
      }
    }
  }

  /** `[.##.] (3) (1,3) (2) (2,3) (0,2) (0,1)` needs 2 presses. */
  lemma FirstTestFewest()
    ensures IsFewestPresses(Machine(6, [8, 10, 4, 12, 5, 3]), 2)
  {
    var m := Machine(6, [8, 10, 4, 12, 5, 3]);
    var ps: seq<Lights> := [5, 3];
    ShortPresses(ps);
    assert UsesButtons(m.buttons, ps);
    forall qs | UsesButtons(m.buttons, qs) && PressAll(qs) == m.indicatorLightPattern ensures 2 <= |qs| {
      ShortPresses(qs);
    }
  }

  /** `[...#.] (0,2,3,4) (2,3) (0,4) (0,1,2) (1,2,3,4)` needs 3 presses. */
  lemma SecondTestFewest()
    ensures IsFewestPresses(Machine(8, [29, 12, 17, 7, 30]), 3)
  {
    var m := Machine(8, [29, 12, 17, 7, 30]);
    var ps: seq<Lights> := [17, 7, 30];
    ShortPresses(ps);
    assert UsesButtons(m.buttons, ps);
    NoTwoShowSecond();
    forall qs | UsesButtons(m.buttons, qs) && PressAll(qs) == m.indicatorLightPattern ensures 3 <= |qs| {
      ShortPresses(qs);
    }
  }

  lemma NoTwoShowSecond()
    ensures forall a, b :: a in [29, 12, 17, 7, 30] && b in [29, 12, 17, 7, 30] ==> Toggle(a, b) != 8
  {
  }

  /** `[.###.#] (0,1,2,3,4) (0,3,4) (0,1,2,4,5) (1,2)` needs 2 presses. */
  lemma ThirdTestFewest()
    ensures IsFewestPresses(Machine(46, [31, 25, 55, 6]), 2)
  {
    var m := Machine(46, [31, 25, 55, 6]);
    var ps: seq<Lights> := [25, 55];
    ShortPresses(ps);
    assert UsesButtons(m.buttons, ps);
    forall qs | UsesButtons(m.buttons, qs) && PressAll(qs) == m.indicatorLightPattern ensures 2 <= |qs| {
      ShortPresses(qs);
    }
  }
}
