/** x5h_emutls.c as a state machine: tasks run `__emutls_get_address` step by step in any
    interleaving, while others create, write, join and cancel. Memory is a heap of disjoint
    regions; `malloc` may return any address whose region is free. */
module Emutls {
  import opened Options

  type Byte = x: int | 0 <= x < 256

  const WORD := 4   // sizeof(void *) on the Cortex-R52
  const GROW := 8

  // ----- control records -----

  /** A control record; the alignment is a positive power of two, so that masking rounds down. */
  datatype Control = Control(size: nat, align: nat, templ: Option<seq<Byte>>)
  {
    predicate Valid() {
      align > 0 && (templ.Some? ==> |templ.value| >= size)
    }

    /** What a first read sees: the template or zeros. */
    function Initial(): (r: seq<Byte>)
      requires Valid()
      ensures |r| == size
    {
      if templ.Some? then templ.value[..size] else Zeros(size)
    }

    function EffectiveAlign(): nat {
      if align > WORD then align else WORD
    }

    /** How much `emutls_alloc_value` asks for. */
    function RawLength(): nat {
      size + EffectiveAlign() + WORD
    }

    /** Where the value goes inside a raw allocation. */
    function ValueAddress(raw: nat): nat
      requires EffectiveAlign() > 0
    {
      RoundDown(raw + WORD + (EffectiveAlign() - 1), EffectiveAlign())
    }
  }

  function Zeros(n: nat): (r: seq<Byte>)
    ensures |r| == n && forall i | 0 <= i < n :: r[i] == 0
  {
    if n == 0 then [] else Zeros(n - 1) + [0]
  }

  function RoundDown(x: nat, a: nat): nat
    requires a > 0
  {
    x - x % a
  }

  /** The value is aligned, the word below it is inside the raw block, and so is its last byte. */
  lemma ValueFits(c: Control, raw: nat)
    requires c.Valid()
    ensures var val := c.ValueAddress(raw);
            && val % c.EffectiveAlign() == 0
            && raw + WORD <= val && val + c.size <= raw + c.RawLength()
  {
    var x, a := raw + WORD + (c.EffectiveAlign() - 1), c.EffectiveAlign();
    var q := x / a;
    assert x == q * a + x % a;
    MultipleOf(q, a);
  }

  lemma AtLeastOneTimes(d: int, a: nat)
    ensures d >= 1 ==> d * a >= a
    ensures d <= -1 ==> d * a + a <= 0
  {
    if d >= 1 {
      assert d * a == (d - 1) * a + a && (d - 1) * a >= 0;
    } else if d <= -1 {
      assert d * a == (d + 1) * a - a && (d + 1) * a <= 0;
    }
  }

  lemma MultipleOf(q: nat, a: nat)
    requires a > 0
    ensures (q * a) % a == 0
  {
    var x := q * a;
    var k, r := x / a, x % a;
    assert x == k * a + r;
    var d := q - k;
    assert d * a == r;
    AtLeastOneTimes(d, a);
  }

  // ----- the state -----

  /** A live allocation. Who it was made for is bookkeeping of the model. */
  datatype Block =
    | Other(len: nat)
    | Array(len: nat, task: nat, slots: seq<nat>)
    | Value(len: nat, task: nat, v: nat, data: seq<Byte>)
  {
    predicate Of(t: nat) {
      !Other? && task == t
    }
  }

  /** Where a task is inside `__emutls_get_address`, with its local variables; between two accesses,
      the address the last one returned, 0 before any. */
  datatype Pc =
    | Idle(returned: nat)
    | NoIndex(v: nat)
    | Indexed(v: nat, idx: nat)
    | Grown(v: nat, idx: nat, replaced: nat, grown: nat)
    | Swapped(v: nat, idx: nat, replaced: nat, grown: nat)
    | Ready(v: nat, idx: nat, arr: nat)
    | Made(v: nat, idx: nat, arr: nat, val: nat)

  /** `slot` is the thread-local-storage slot in the TCB; 0 is NULL. */
  datatype Task = Task(slot: nat, pc: Pc)

  /** `loc[v]` is the index word of variable v, `words` the back pointers below the values. */
  datatype State = State(
    vars: seq<Control>, loc: seq<nat>, next: nat,
    heap: map<nat, Block>, words: map<int, nat>, tasks: map<nat, Task>)

  // ----- the invariant -----

  predicate Apart(a: nat, la: nat, b: nat, lb: nat) {
    a + la <= b || b + lb <= a
  }

  ghost predicate FreeRegion(heap: map<nat, Block>, a: nat, len: nat) {
    a > 0 && len > 0 && forall b | b in heap :: Apart(a, len, b, heap[b].len)
  }

  ghost predicate HeapInv(heap: map<nat, Block>) {
    && (forall a | a in heap :: a > 0 && heap[a].len > 0)
    && (forall a, b | a in heap && b in heap && a != b :: Apart(a, heap[a].len, b, heap[b].len))
  }

  ghost predicate LocInv(s: State) {
    && |s.loc| == |s.vars| && (forall v | 0 <= v < |s.vars| :: s.vars[v].Valid() && s.loc[v] <= s.next)
    && (forall v, w | 0 <= v < w < |s.vars| :: s.loc[v] == s.loc[w] ==> s.loc[v] == 0)
  }

  /** `val` is the value block of task t for the variable with index i + 1. */
  predicate ValueAt(s: State, t: nat, i: nat, val: nat) {
    && val >= WORD && (val - WORD) in s.words && s.words[val - WORD] in s.heap
    && var raw := s.words[val - WORD];
       var b := s.heap[raw];
       && b.Value? && b.task == t && b.v < |s.vars| && b.v < |s.loc| && s.loc[b.v] == i + 1
       && raw + WORD <= val && val + s.vars[b.v].size <= raw + b.len
       && s.vars[b.v].EffectiveAlign() > 0 && val % s.vars[b.v].EffectiveAlign() == 0
       && |b.data| == s.vars[b.v].size
  }

  ghost predicate SlotsInv(s: State, t: nat, slots: seq<nat>) {
    forall i | 0 <= i < |slots| && slots[i] != 0 :: ValueAt(s, t, i, slots[i])
  }

  predicate ArrayAt(s: State, t: nat, arr: nat) {
    arr in s.heap && s.heap[arr].Array? && s.heap[arr].task == t
  }

  ghost predicate SlotInv(s: State, t: nat, slot: nat) {
    slot != 0 ==> ArrayAt(s, t, slot) && SlotsInv(s, t, s.heap[slot].slots)
  }

  predicate IndexOf(s: State, v: nat, idx: nat) {
    v < |s.vars| && v < |s.loc| && s.loc[v] == idx > 0
  }

  ghost predicate PcInv(s: State, t: nat, task: Task) {
    match task.pc
    case Idle(_) => true
    case NoIndex(v) => v < |s.vars|
    case Indexed(v, idx) => IndexOf(s, v, idx)
    case Grown(v, idx, replaced, grown) =>
      && IndexOf(s, v, idx) && replaced == task.slot && grown != 0 && grown != replaced && ArrayAt(s, t, grown)
      && idx <= |s.heap[grown].slots| && SlotsInv(s, t, s.heap[grown].slots)
      && (replaced != 0 ==> replaced in s.heap && s.heap[replaced].Array?
                            && s.heap[replaced].slots <= s.heap[grown].slots)
      && forall i | (if replaced == 0 then 0 else |s.heap[replaced].slots|) <= i < |s.heap[grown].slots| ::
          s.heap[grown].slots[i] == 0
    case Swapped(v, idx, replaced, grown) =>
      && IndexOf(s, v, idx) && task.slot == grown && grown != 0 && grown != replaced && ArrayAt(s, t, grown)
      && idx <= |s.heap[grown].slots| && (replaced != 0 ==> ArrayAt(s, t, replaced))
    case Ready(v, idx, arr) =>
      IndexOf(s, v, idx) && task.slot == arr && arr != 0 && ArrayAt(s, t, arr) && idx <= |s.heap[arr].slots|
    case Made(v, idx, arr, val) =>
      && IndexOf(s, v, idx) && task.slot == arr && arr != 0 && ArrayAt(s, t, arr) && idx <= |s.heap[arr].slots|
      && s.heap[arr].slots[idx - 1] == 0 && val != 0 && ValueAt(s, t, idx - 1, val)
  }

  /** The stored address of variable v in task t, 0 when the task has none. */
  function Stored(s: State, slot: nat, v: nat): nat {
    if v < |s.loc| && s.loc[v] > 0 && slot != 0 && slot in s.heap && s.heap[slot].Array?
       && s.loc[v] <= |s.heap[slot].slots|
    then s.heap[slot].slots[s.loc[v] - 1] else 0
  }

  /** A block of a live task is reachable from its slot or held in its local variables. */
  predicate Reachable(s: State, raw: nat, task: Task)
    requires raw in s.heap
  {
    match s.heap[raw]
    case Other(_) => true
    case Array(_, _, _) =>
      raw == task.slot || (task.pc.Grown? && task.pc.grown == raw) || (task.pc.Swapped? && task.pc.replaced == raw)
    case Value(_, _, v, _) =>
      || (Stored(s, task.slot, v) >= WORD && (Stored(s, task.slot, v) - WORD) in s.words
          && s.words[Stored(s, task.slot, v) - WORD] == raw)
      || (task.pc.Made? && task.pc.val >= WORD && (task.pc.val - WORD) in s.words
          && s.words[task.pc.val - WORD] == raw)
  }

  ghost predicate NothingLost(s: State, t: nat)
    requires t in s.tasks
  {
    forall raw | raw in s.heap && s.heap[raw].Of(t) :: Reachable(s, raw, s.tasks[t])
  }

  ghost predicate TaskInv(s: State, t: nat)
    requires t in s.tasks
  {
    SlotInv(s, t, s.tasks[t].slot) && PcInv(s, t, s.tasks[t]) && NothingLost(s, t)
  }

  ghost predicate Inv(s: State) {
    HeapInv(s.heap) && LocInv(s) && forall t | t in s.tasks :: TaskInv(s, t)
  }

  // ----- steps of __emutls_get_address -----

  function WithTask(s: State, t: nat, task: Task): State {
    s.(tasks := s.tasks[t := task])
  }

  predicate At(s: State, t: nat) {
    t in s.tasks
  }

  /** Entry: the unprotected read of `loc`. */
  function Begin(s: State, t: nat, v: nat): State
    requires At(s, t) && v < |s.loc|
  {
    WithTask(s, t, s.tasks[t].(pc := if s.loc[v] == 0 then NoIndex(v) else Indexed(v, s.loc[v])))
  }

  /** The critical section: read again, and assign the next index only if still unassigned. */
  function AssignIndex(s: State, t: nat): State
    requires At(s, t) && s.tasks[t].pc.NoIndex? && s.tasks[t].pc.v < |s.loc|
  {
    var v := s.tasks[t].pc.v;
    if s.loc[v] != 0 then WithTask(s, t, s.tasks[t].(pc := Indexed(v, s.loc[v])))
    else WithTask(s.(next := s.next + 1, loc := s.loc[v := s.next + 1]), t, s.tasks[t].(pc := Indexed(v, s.next + 1)))
  }

  /** The capacity for an index: the next multiple of eight. */
  function Capacity(idx: nat): (cap: nat)
    requires idx > 0
    ensures idx <= cap < idx + GROW && cap % GROW == 0
  {
    RoundDown(idx + (GROW - 1), GROW)
  }

  /** Old slots first, then NULLs. */
  function GrownSlots(slots: seq<nat>, cap: nat): (r: seq<nat>)
    requires |slots| <= cap
    ensures |r| == cap && slots <= r && forall i | |slots| <= i < cap :: r[i] == 0
  {
    slots + seq(cap - |slots|, i => 0)
  }

  predicate NeedsGrowth(s: State, t: nat)
    requires At(s, t) && s.tasks[t].pc.Indexed?
  {
    var slot := s.tasks[t].slot;
    slot == 0 || slot !in s.heap || !s.heap[slot].Array? || |s.heap[slot].slots| < s.tasks[t].pc.idx
  }

  function OldSlots(s: State, slot: nat): seq<nat> {
    if slot != 0 && slot in s.heap && s.heap[slot].Array? then s.heap[slot].slots else []
  }

  function ArrayLength(cap: nat): nat {
    WORD + cap * WORD
  }

  /** The array is big enough, or a grown copy is allocated and filled, still private. */
  function LookUp(s: State, t: nat, raw: nat): State
    requires At(s, t) && s.tasks[t].pc.Indexed? && s.tasks[t].pc.idx > 0
  {
    var Indexed(v, idx) := s.tasks[t].pc;
    var slot := s.tasks[t].slot;
    if !NeedsGrowth(s, t) then WithTask(s, t, s.tasks[t].(pc := Ready(v, idx, slot)))
    else
      var block := Array(ArrayLength(Capacity(idx)), t, GrownSlots(OldSlots(s, slot), Capacity(idx)));
      WithTask(s.(heap := s.heap[raw := block]), t, s.tasks[t].(pc := Grown(v, idx, slot, raw)))
  }

  function Install(s: State, t: nat): State
    requires At(s, t) && s.tasks[t].pc.Grown?
  {
    var Grown(v, idx, replaced, grown) := s.tasks[t].pc;
    WithTask(s, t, Task(grown, Swapped(v, idx, replaced, grown)))
  }

  function FreeOld(s: State, t: nat): State
    requires At(s, t) && s.tasks[t].pc.Swapped?
  {
    var Swapped(v, idx, replaced, grown) := s.tasks[t].pc;
    WithTask(s.(heap := s.heap - {replaced}), t, s.tasks[t].(pc := Ready(v, idx, grown)))
  }

  /** A value block allocated and filled, with the raw pointer in the word below the value; still
      private. */
  function FetchMiss(s: State, t: nat, raw: nat, c: Control): State
    requires At(s, t) && s.tasks[t].pc.Ready? && c.Valid()
  {
    var Ready(v, idx, arr) := s.tasks[t].pc;
    var val := c.ValueAddress(raw);
    State(s.vars, s.loc, s.next, s.heap[raw := Value(c.RawLength(), t, v, c.Initial())], s.words[val - WORD := raw],
          s.tasks[t := s.tasks[t].(pc := Made(v, idx, arr, val))])
  }

  predicate CanFetch(s: State, t: nat) {
    && At(s, t) && s.tasks[t].pc.Ready? && s.tasks[t].pc.v < |s.vars| && s.vars[s.tasks[t].pc.v].Valid()
    && s.tasks[t].pc.arr in s.heap && s.heap[s.tasks[t].pc.arr].Array?
    && 0 < s.tasks[t].pc.idx <= |s.heap[s.tasks[t].pc.arr].slots|
  }

  /** The stored value is returned, or a new block is made. */
  function Fetch(s: State, t: nat, raw: nat): State
    requires CanFetch(s, t)
  {
    var found := s.heap[s.tasks[t].pc.arr].slots[s.tasks[t].pc.idx - 1];
    if found != 0 then WithTask(s, t, s.tasks[t].(pc := Idle(found)))
    else FetchMiss(s, t, raw, s.vars[s.tasks[t].pc.v])
  }

  predicate CanPublish(s: State, t: nat) {
    && At(s, t) && s.tasks[t].pc.Made? && s.tasks[t].pc.arr in s.heap && s.heap[s.tasks[t].pc.arr].Array?
    && 0 < s.tasks[t].pc.idx <= |s.heap[s.tasks[t].pc.arr].slots|
  }

  function Publish(s: State, t: nat): State
    requires CanPublish(s, t)
  {
    var Made(v, idx, arr, val) := s.tasks[t].pc;
    var a := s.heap[arr];
    WithTask(s.(heap := s.heap[arr := a.(slots := a.slots[idx - 1 := val])]), t, s.tasks[t].(pc := Idle(val)))
  }

  // ----- the rest of the program -----

  /** The task stores through an address it got earlier. */
  function Write(s: State, t: nat, v: nat, data: seq<Byte>): State
    requires At(s, t) && HasValue(s, s.tasks[t].slot, v)
  {
    var raw := s.words[Stored(s, s.tasks[t].slot, v) - WORD];
    s.(heap := s.heap[raw := s.heap[raw].(data := data)])
  }

  predicate HasValue(s: State, slot: nat, v: nat) {
    var val := Stored(s, slot, v);
    val >= WORD && (val - WORD) in s.words && s.words[val - WORD] in s.heap && s.heap[s.words[val - WORD]].Value?
  }

  /** What task t would read from variable v. */
  function Read(s: State, t: nat, v: nat): seq<Byte>
    requires At(s, t) && v < |s.vars| && s.vars[v].Valid()
  {
    if HasValue(s, s.tasks[t].slot, v) then s.heap[s.words[Stored(s, s.tasks[t].slot, v) - WORD]].data
    else s.vars[v].Initial()
  }

  predicate BackPointers(words: map<int, nat>, slots: seq<nat>) {
    forall i | 0 <= i < |slots| && slots[i] != 0 :: slots[i] >= WORD && (slots[i] - WORD) in words
  }

  /** The raw pointers the cleanup loop frees, in order. */
  function RawsOf(words: map<int, nat>, slots: seq<nat>): seq<nat>
    requires BackPointers(words, slots)
    decreases |slots|
  {
    if slots == [] then []
    else
      var n := |slots| - 1;
      RawsOf(words, slots[..n]) + (if slots[n] != 0 then [words[slots[n] - WORD]] else [])
  }

  /** Every `free` in this order hits a live allocation. */
  predicate Freeable(heap: map<nat, Block>, raws: seq<nat>)
    decreases |raws|
  {
    raws == [] || (raws[0] in heap && Freeable(heap - {raws[0]}, raws[1..]))
  }

  function FreeAll(heap: map<nat, Block>, raws: seq<nat>): map<nat, Block>
    decreases |raws|
  {
    if raws == [] then heap else FreeAll(heap - {raws[0]}, raws[1..])
  }

  /** What `x5h_emutls_task_cleanup` frees. */
  function CleanupList(s: State, slot: nat): seq<nat>
    requires slot != 0 ==> BackPointers(s.words, OldSlots(s, slot))
  {
    if slot == 0 then [] else RawsOf(s.words, OldSlots(s, slot)) + [slot]
  }

  /** Join of a finished thread, or cancel of a suspended one: cleanup, then the task is deleted
      and its TCB, with the slot, goes. */
  function Reclaim(s: State, t: nat): State
    requires At(s, t) && (s.tasks[t].slot != 0 ==> BackPointers(s.words, OldSlots(s, s.tasks[t].slot)))
  {
    s.(heap := FreeAll(s.heap, CleanupList(s, s.tasks[t].slot)), tasks := s.tasks - {t})
  }

  datatype Action =
    | DoBegin(t: nat, v: nat)
    | DoAssignIndex(t: nat)
    | DoLookUp(t: nat, raw: nat)
    | DoInstall(t: nat)
    | DoFreeOld(t: nat)
    | DoFetch(t: nat, raw: nat)
    | DoPublish(t: nat)
    | DoWrite(t: nat, v: nat, data: seq<Byte>)
    | DoSpawn(t: nat)
    | DoReclaim(t: nat)
    | DoMalloc(raw: nat, len: nat)
    | DoFree(raw: nat)

  /** When an action can happen. `malloc` gives any free region; a new task has a fresh identity;
      the rest of the program frees only its own allocations. */
  ghost predicate Enabled(s: State, a: Action) {
    match a
    case DoBegin(t, v) => At(s, t) && s.tasks[t].pc.Idle? && v < |s.vars|
    case DoAssignIndex(t) => At(s, t) && s.tasks[t].pc.NoIndex?
    case DoLookUp(t, raw) =>
      && At(s, t) && s.tasks[t].pc.Indexed? && s.tasks[t].pc.idx > 0
      && (NeedsGrowth(s, t) ==> FreeRegion(s.heap, raw, ArrayLength(Capacity(s.tasks[t].pc.idx))))
    case DoInstall(t) => At(s, t) && s.tasks[t].pc.Grown?
    case DoFreeOld(t) => At(s, t) && s.tasks[t].pc.Swapped?
    case DoFetch(t, raw) =>
      && At(s, t) && s.tasks[t].pc.Ready? && s.tasks[t].pc.v < |s.vars|
      && FreeRegion(s.heap, raw, s.vars[s.tasks[t].pc.v].RawLength())
    case DoPublish(t) => At(s, t) && s.tasks[t].pc.Made?
    case DoWrite(t, v, data) =>
      At(s, t) && s.tasks[t].pc.Idle? && v < |s.vars| && Stored(s, s.tasks[t].slot, v) != 0 && |data| == s.vars[v].size
    case DoSpawn(t) => !At(s, t) && forall raw | raw in s.heap :: !s.heap[raw].Of(t)
    case DoReclaim(t) => At(s, t)
    case DoMalloc(raw, len) => FreeRegion(s.heap, raw, len)
    case DoFree(raw) => raw in s.heap && s.heap[raw].Other?
  }

  /** The state after an action. */
  ghost function Next(s: State, a: Action): State
    requires Inv(s) && Enabled(s, a)
  {
    match a
    case DoBegin(t, v) => Begin(s, t, v)
    case DoAssignIndex(t) => CanStep(s, t); AssignIndex(s, t)
    case DoLookUp(t, raw) => LookUp(s, t, raw)
    case DoInstall(t) => Install(s, t)
    case DoFreeOld(t) => FreeOld(s, t)
    case DoFetch(t, raw) => CanStep(s, t); Fetch(s, t, raw)
    case DoPublish(t) => CanStep(s, t); Publish(s, t)
    case DoWrite(t, v, data) => CanWrite(s, t, v); Write(s, t, v, data)
    case DoSpawn(t) => s.(tasks := s.tasks[t := Task(0, Idle(0))])
    case DoReclaim(t) => SlotsHaveBackPointers(s, t); Reclaim(s, t)
    case DoMalloc(raw, len) => s.(heap := s.heap[raw := Other(len)])
    case DoFree(raw) => s.(heap := s.heap - {raw})
  }

  lemma CanStep(s: State, t: nat)
    requires Inv(s) && At(s, t)
    ensures s.tasks[t].pc.NoIndex? ==> s.tasks[t].pc.v < |s.loc|
    ensures s.tasks[t].pc.Ready? ==> CanFetch(s, t)
    ensures s.tasks[t].pc.Made? ==> CanPublish(s, t)
  {
    assert TaskInv(s, t);
  }

  lemma CanWrite(s: State, t: nat, v: nat)
    requires Inv(s) && At(s, t) && v < |s.vars| && Stored(s, s.tasks[t].slot, v) != 0
    ensures HasValue(s, s.tasks[t].slot, v)
  {
    assert TaskInv(s, t);
    StoredHasValue(s, t, v);
  }

  lemma StoredHasValue(s: State, t: nat, v: nat)
    requires LocInv(s) && At(s, t) && TaskInv(s, t) && v < |s.vars|
    ensures var val := Stored(s, s.tasks[t].slot, v);
            if val == 0 then !HasValue(s, s.tasks[t].slot, v)
            else HasValue(s, s.tasks[t].slot, v) && s.loc[v] > 0 && ValueAt(s, t, s.loc[v] - 1, val)
                 && s.heap[s.words[val - WORD]].v == v
  {
    var val := Stored(s, s.tasks[t].slot, v);
    if val != 0 {
      assert SlotInv(s, t, s.tasks[t].slot);
      assert ValueAt(s, t, s.loc[v] - 1, val);
    }
  }

  lemma SlotsHaveBackPointers(s: State, t: nat)
    requires Inv(s) && At(s, t)
    ensures s.tasks[t].slot != 0 ==> BackPointers(s.words, OldSlots(s, s.tasks[t].slot))
  {
    assert TaskInv(s, t);
  }

  // ----- frame -----

  /** The same block up to the bytes of a value. */
  predicate Alike(b: Block, c: Block) {
    b == c || (b.Value? && c.Value? && c == b.(data := c.data) && |c.data| == |b.data|)
  }

  /** What s2 keeps for task t: assigned indices, its blocks, and the words inside them. */
  ghost predicate Kept(s: State, s2: State, t: nat) {
    && s2.vars == s.vars && |s2.loc| == |s.loc|
    && (forall v | 0 <= v < |s.loc| && s.loc[v] != 0 :: s2.loc[v] == s.loc[v])
    && (forall raw | raw in s.heap && s.heap[raw].Value? && s.heap[raw].Of(t) ::
          raw in s2.heap && Alike(s.heap[raw], s2.heap[raw]))
    && (forall w | w in s.words && InValueOf(s, t, w) :: w in s2.words && s2.words[w] == s.words[w])
  }

  /** Word w lies inside the value block its content points to. */
  predicate InValueOf(s: State, t: nat, w: int)
    requires w in s.words
  {
    s.words[w] in s.heap && s.heap[s.words[w]].Of(t) && s.words[w] <= w < s.words[w] + s.heap[s.words[w]].len
  }

  lemma ValueKept(s: State, s2: State, t: nat, i: nat, val: nat)
    requires Kept(s, s2, t) && ValueAt(s, t, i, val)
    ensures ValueAt(s2, t, i, val) && s2.words[val - WORD] == s.words[val - WORD]
  {
  }

  lemma SlotsKept(s: State, s2: State, t: nat, slots: seq<nat>)
    requires Kept(s, s2, t) && SlotsInv(s, t, slots)
    ensures SlotsInv(s2, t, slots)
  {
    forall i | 0 <= i < |slots| && slots[i] != 0
      ensures ValueAt(s2, t, i, slots[i])
    {
      ValueKept(s, s2, t, i, slots[i]);
    }
  }

  /** Another task's step: t's arrays are kept and it gains no block. */
  ghost predicate Untouched(s: State, s2: State, t: nat) {
    && Kept(s, s2, t)
    && (forall raw | raw in s.heap && s.heap[raw].Array? && s.heap[raw].Of(t) ::
          raw in s2.heap && s2.heap[raw] == s.heap[raw])
    && (forall raw | raw in s2.heap && s2.heap[raw].Of(t) :: raw in s.heap && Alike(s.heap[raw], s2.heap[raw]))
  }

  lemma PcKept(s: State, s2: State, t: nat, task: Task)
    requires Untouched(s, s2, t) && SlotInv(s, t, task.slot) && PcInv(s, t, task)
    ensures PcInv(s2, t, task)
  {
    match task.pc
    case Grown(v, idx, replaced, grown) => SlotsKept(s, s2, t, s.heap[grown].slots);
    case Made(v, idx, arr, val) => ValueKept(s, s2, t, idx - 1, val);
    case _ =>
  }

  lemma ReachableKept(s: State, s2: State, t: nat, task: Task, raw: nat)
    requires Untouched(s, s2, t) && SlotInv(s, t, task.slot) && PcInv(s, t, task)
    requires raw in s.heap && s.heap[raw].Of(t) && Reachable(s, raw, task) && raw in s2.heap
    requires Alike(s.heap[raw], s2.heap[raw])
    ensures Reachable(s2, raw, task)
  {
    if s.heap[raw].Value? {
      var v := s.heap[raw].v;
      var val := Stored(s, task.slot, v);
      if val >= WORD && (val - WORD) in s.words && s.words[val - WORD] == raw {
        assert ValueAt(s, t, s.loc[v] - 1, val);
        ValueKept(s, s2, t, s.loc[v] - 1, val);
        assert Stored(s2, task.slot, v) == val;
      } else {
        ValueKept(s, s2, t, task.pc.idx - 1, task.pc.val);
      }
    }
  }

  lemma TaskKept(s: State, s2: State, t: nat)
    requires At(s, t) && TaskInv(s, t) && At(s2, t) && s2.tasks[t] == s.tasks[t] && Untouched(s, s2, t)
    ensures TaskInv(s2, t)
  {
    var task := s.tasks[t];
    if task.slot != 0 {
      SlotsKept(s, s2, t, s.heap[task.slot].slots);
    }
    PcKept(s, s2, t, task);
    forall raw | raw in s2.heap && s2.heap[raw].Of(t)
      ensures Reachable(s2, raw, task)
    {
      ReachableKept(s, s2, t, task, raw);
    }
  }

  /** A step of t touches no other task: not its record, blocks, words, nor an assigned index. */
  ghost predicate OnlyTouches(s: State, s2: State, t: nat) {
    && s2.vars == s.vars && |s2.loc| == |s.loc|
    && (forall v | 0 <= v < |s.loc| && s.loc[v] != 0 :: s2.loc[v] == s.loc[v])
    && (forall raw | raw in s.heap && !s.heap[raw].Other? && !s.heap[raw].Of(t) ::
          raw in s2.heap && s2.heap[raw] == s.heap[raw])
    && (forall raw | raw in s2.heap && !s2.heap[raw].Other? && !s2.heap[raw].Of(t) ::
          raw in s.heap && s2.heap[raw] == s.heap[raw])
    && (forall w | w in s.words && InBlock(s, w) && !s.heap[s.words[w]].Of(t) ::
          w in s2.words && s2.words[w] == s.words[w])
    && (forall u | u in s2.tasks && u != t :: u in s.tasks && s2.tasks[u] == s.tasks[u])
  }

  predicate InBlock(s: State, w: int)
    requires w in s.words
  {
    s.words[w] in s.heap && s.words[w] <= w < s.words[w] + s.heap[s.words[w]].len
  }

  lemma OthersKept(s: State, s2: State, t: nat, u: nat)
    requires Inv(s) && OnlyTouches(s, s2, t) && u != t && At(s2, u)
    ensures TaskInv(s2, u)
  {
    assert TaskInv(s, u);
    assert Untouched(s, s2, u);
    TaskKept(s, s2, u);
  }

  /** What the acting task needs to know. */
  ghost predicate Local(s: State, t: nat) {
    HeapInv(s.heap) && LocInv(s) && At(s, t) && TaskInv(s, t)
  }

  /** What it must leave behind. */
  ghost predicate LocalStep(s: State, s2: State, t: nat) {
    HeapInv(s2.heap) && LocInv(s2) && OnlyTouches(s, s2, t) && (At(s2, t) ==> TaskInv(s2, t))
  }

  lemma StepInv(s: State, s2: State, t: nat)
    requires Inv(s) && LocalStep(s, s2, t)
    ensures Inv(s2)
  {
    forall u | u in s2.tasks
      ensures TaskInv(s2, u)
    {
      if u != t {
        OthersKept(s, s2, t, u);
      }
    }
  }

  // ----- every step keeps the invariant -----

  lemma MallocKeepsHeap(heap: map<nat, Block>, raw: nat, b: Block)
    requires HeapInv(heap) && FreeRegion(heap, raw, b.len)
    ensures raw !in heap && HeapInv(heap[raw := b])
  {
    assert raw in heap ==> Apart(raw, b.len, raw, heap[raw].len);
  }

  predicate HoldsNothing(pc: Pc) {
    !pc.Grown? && !pc.Swapped? && !pc.Made?
  }

  /** With nothing held in locals, a block stays reachable when the slot's array and the words stay. */
  lemma OwnReachable(s: State, s2: State, t: nat, raw: nat)
    requires At(s, t) && At(s2, t) && TaskInv(s, t) && Kept(s, s2, t) && s2.tasks[t].slot == s.tasks[t].slot
    requires s.tasks[t].slot != 0 ==> s.tasks[t].slot in s2.heap && s2.heap[s.tasks[t].slot] == s.heap[s.tasks[t].slot]
    requires HoldsNothing(s.tasks[t].pc)
    requires raw in s.heap && s.heap[raw].Of(t) && raw in s2.heap && Alike(s.heap[raw], s2.heap[raw])
    ensures Reachable(s2, raw, s2.tasks[t])
  {
    assert Reachable(s, raw, s.tasks[t]);
    if s.heap[raw].Value? {
      var v := s.heap[raw].v;
      var val := Stored(s, s.tasks[t].slot, v);
      assert ValueAt(s, t, s.loc[v] - 1, val);
      ValueKept(s, s2, t, s.loc[v] - 1, val);
    }
  }

  /** Only the program counter of t moved. */
  lemma PcMoved(s: State, s2: State, t: nat)
    requires At(s, t) && At(s2, t) && TaskInv(s, t) && Untouched(s, s2, t)
    requires s2.tasks[t].slot == s.tasks[t].slot && HoldsNothing(s.tasks[t].pc)
    requires PcInv(s2, t, s2.tasks[t])
    ensures TaskInv(s2, t)
  {
    if s.tasks[t].slot != 0 {
      SlotsKept(s, s2, t, s.heap[s.tasks[t].slot].slots);
    }
    forall raw | raw in s2.heap && s2.heap[raw].Of(t)
      ensures Reachable(s2, raw, s2.tasks[t])
    {
      OwnReachable(s, s2, t, raw);
    }
  }

  lemma BeginKeeps(s: State, t: nat, v: nat)
    requires Local(s, t) && s.tasks[t].pc.Idle? && v < |s.vars|
    ensures LocalStep(s, Begin(s, t, v), t)
  {
    assert TaskInv(s, t);
    var s2 := Begin(s, t, v);
    PcMoved(s, s2, t);
  }

  lemma AssignedLoc(s: State, v: nat)
    requires LocInv(s) && v < |s.loc| && s.loc[v] == 0
    ensures LocInv(s.(next := s.next + 1, loc := s.loc[v := s.next + 1]))
  {
  }

  /** Under the critical section an index is assigned once and to one variable only. */
  lemma AssignIndexKeeps(s: State, t: nat)
    requires Local(s, t) && s.tasks[t].pc.NoIndex?
    ensures s.tasks[t].pc.v < |s.loc| && LocalStep(s, AssignIndex(s, t), t)
  {
    assert TaskInv(s, t);
    var v := s.tasks[t].pc.v;
    var s2 := AssignIndex(s, t);
    if s.loc[v] == 0 {
      AssignedLoc(s, v);
    }
    PcMoved(s, s2, t);
  }

  lemma LookUpKeeps(s: State, t: nat, raw: nat)
    requires Local(s, t) && s.tasks[t].pc.Indexed? && s.tasks[t].pc.idx > 0
    requires NeedsGrowth(s, t) ==> FreeRegion(s.heap, raw, ArrayLength(Capacity(s.tasks[t].pc.idx)))
    ensures LocalStep(s, LookUp(s, t, raw), t)
  {
    assert TaskInv(s, t);
    var s2 := LookUp(s, t, raw);
    if NeedsGrowth(s, t) {
      MallocKeepsHeap(s.heap, raw, s2.heap[raw]);
      GrownInv(s, s2, t, raw);
    } else {
      PcMoved(s, s2, t);
    }
  }

  lemma GrownInv(s: State, s2: State, t: nat, raw: nat)
    requires At(s, t) && s.tasks[t].pc.Indexed? && s.tasks[t].pc.idx > 0 && TaskInv(s, t)
    requires NeedsGrowth(s, t) && s2 == LookUp(s, t, raw) && raw !in s.heap && raw != 0
    ensures TaskInv(s2, t)
  {
    assert TaskInv(s, t);
    var slot := s.tasks[t].slot;
    var slots := s2.heap[raw].slots;
    assert Kept(s, s2, t);
    assert SlotsInv(s, t, slots) by {
      forall i | 0 <= i < |slots| && slots[i] != 0
        ensures ValueAt(s, t, i, slots[i])
      {
        assert i < |OldSlots(s, slot)| && slots[i] == OldSlots(s, slot)[i];
      }
    }
    SlotsKept(s, s2, t, slots);
    if slot != 0 {
      SlotsKept(s, s2, t, s.heap[slot].slots);
    }
    forall b | b in s2.heap && s2.heap[b].Of(t)
      ensures Reachable(s2, b, s2.tasks[t])
    {
      if b != raw {
        OwnReachable(s, s2, t, b);
      }
    }
  }

  lemma InstallKeeps(s: State, t: nat)
    requires Local(s, t) && s.tasks[t].pc.Grown?
    ensures LocalStep(s, Install(s, t), t)
  {
    InstalledInv(s, Install(s, t), t);
  }

  lemma InstalledInv(s: State, s2: State, t: nat)
    requires At(s, t) && s.tasks[t].pc.Grown? && TaskInv(s, t) && s2 == Install(s, t)
    ensures TaskInv(s2, t)
  {
    assert TaskInv(s, t);
    var Grown(v, idx, replaced, grown) := s.tasks[t].pc;
    SlotsKept(s, s2, t, s.heap[grown].slots);
    forall raw | raw in s2.heap && s2.heap[raw].Of(t)
      ensures Reachable(s2, raw, s2.tasks[t])
    {
      assert Reachable(s, raw, s.tasks[t]);
      if s.heap[raw].Value? {
        assert Stored(s2, grown, s.heap[raw].v) == Stored(s, replaced, s.heap[raw].v);
      }
    }
  }

  lemma FreeOldKeeps(s: State, t: nat)
    requires Local(s, t) && s.tasks[t].pc.Swapped?
    ensures LocalStep(s, FreeOld(s, t), t)
  {
    assert TaskInv(s, t);
    var Swapped(v, idx, replaced, grown) := s.tasks[t].pc;
    FreedOldInv(s, FreeOld(s, t), t, replaced, grown);
    assert PcInv(FreeOld(s, t), t, FreeOld(s, t).tasks[t]);
  }

  lemma FreedOldInv(s: State, s2: State, t: nat, replaced: nat, grown: nat)
    requires At(s, t) && At(s2, t) && SlotInv(s, t, grown) && NothingLost(s, t) && s.tasks[t].slot == grown != 0
    requires grown != replaced
    requires s.tasks[t].pc.Swapped? && s.tasks[t].pc.replaced == replaced && s2.tasks[t].slot == grown
    requires s2.heap == s.heap - {replaced} && (replaced in s.heap ==> s.heap[replaced].Array?)
    requires s2.words == s.words && s2.loc == s.loc && s2.vars == s.vars
    ensures SlotInv(s2, t, grown) && NothingLost(s2, t)
  {
    SlotsKept(s, s2, t, s.heap[grown].slots);
    forall raw | raw in s2.heap && s2.heap[raw].Of(t)
      ensures Reachable(s2, raw, s2.tasks[t])
    {
      assert Reachable(s, raw, s.tasks[t]);
    }
  }

  // Fetch: a fresh value block, private until it is published.

  lemma FetchReady(s: State, t: nat)
    requires At(s, t) && s.tasks[t].pc.Ready? && LocInv(s) && TaskInv(s, t)
    ensures CanFetch(s, t)
    ensures s.heap[s.tasks[t].pc.arr].slots[s.tasks[t].pc.idx - 1] == Stored(s, s.tasks[t].slot, s.tasks[t].pc.v)
  {
  }

  lemma HitKeeps(s: State, t: nat, found: nat)
    requires Local(s, t) && s.tasks[t].pc.Ready?
    ensures LocalStep(s, WithTask(s, t, s.tasks[t].(pc := Idle(found))), t)
  {
    assert TaskInv(s, t);
    PcMoved(s, WithTask(s, t, s.tasks[t].(pc := Idle(found))), t);
  }

  lemma MissKeeps(s: State, t: nat, raw: nat, c: Control)
    requires Local(s, t) && s.tasks[t].pc.Ready? && c == s.vars[s.tasks[t].pc.v] && c.Valid()
    requires FreeRegion(s.heap, raw, c.RawLength())
    requires Stored(s, s.tasks[t].slot, s.tasks[t].pc.v) == 0
    ensures LocalStep(s, FetchMiss(s, t, raw, c), t)
  {
    var s2 := FetchMiss(s, t, raw, c);
    MallocKeepsHeap(s.heap, raw, s2.heap[raw]);
    WordsKept(s.heap, s.words, raw, c);
    MadeInv(s, s2, t, raw, c);
    MissTouches(s, t, raw, c);
  }

  lemma MissTouches(s: State, t: nat, raw: nat, c: Control)
    requires At(s, t) && s.tasks[t].pc.Ready? && c.Valid() && raw !in s.heap
    requires forall w | w in s.words && InBlock(s, w) :: w != c.ValueAddress(raw) - WORD
    ensures OnlyTouches(s, FetchMiss(s, t, raw, c), t)
  {
  }

  /** The back pointer is written inside the fresh block, so no word of another block changes. */
  lemma WordsKept(heap: map<nat, Block>, words: map<int, nat>, raw: nat, c: Control)
    requires c.Valid() && FreeRegion(heap, raw, c.RawLength())
    ensures forall w | w in words && words[w] in heap && words[w] <= w < words[w] + heap[words[w]].len ::
              w != c.ValueAddress(raw) - WORD
  {
    ValueFits(c, raw);
    forall w | w in words && words[w] in heap && words[w] <= w < words[w] + heap[words[w]].len
      ensures w != c.ValueAddress(raw) - WORD
    {
      assert Apart(raw, c.RawLength(), words[w], heap[words[w]].len);
    }
  }

  lemma MadeInv(s: State, s2: State, t: nat, raw: nat, c: Control)
    requires At(s, t) && s.tasks[t].pc.Ready? && TaskInv(s, t) && LocInv(s) && c == s.vars[s.tasks[t].pc.v] && c.Valid()
    requires raw !in s.heap && s2 == FetchMiss(s, t, raw, c)
    requires Stored(s, s.tasks[t].slot, s.tasks[t].pc.v) == 0
    requires forall w | w in s.words && InBlock(s, w) :: w != c.ValueAddress(raw) - WORD
    ensures TaskInv(s2, t)
  {
    ValueFits(c, raw);
    assert Kept(s, s2, t);
    SlotsKept(s, s2, t, s.heap[s.tasks[t].slot].slots);
    forall b | b in s2.heap && s2.heap[b].Of(t)
      ensures Reachable(s2, b, s2.tasks[t])
    {
      if b != raw {
        OwnReachable(s, s2, t, b);
      }
    }
  }

  // Publish

  lemma PublishKeeps(s: State, t: nat)
    requires Local(s, t) && s.tasks[t].pc.Made?
    ensures CanPublish(s, t) && LocalStep(s, Publish(s, t), t)
  {
    assert TaskInv(s, t);
    PublishedInv(s, Publish(s, t), t);
  }

  lemma PublishedInv(s: State, s2: State, t: nat)
    requires At(s, t) && s.tasks[t].pc.Made? && TaskInv(s, t) && s2 == Publish(s, t)
    ensures TaskInv(s2, t)
  {
    var Made(v, idx, arr, val) := s.tasks[t].pc;
    var slots := s.heap[arr].slots[idx - 1 := val];
    assert Kept(s, s2, t);
    assert SlotsInv(s, t, slots);
    SlotsKept(s, s2, t, slots);
    forall raw | raw in s2.heap && s2.heap[raw].Of(t)
      ensures Reachable(s2, raw, s2.tasks[t])
    {
      PublishedReachable(s, s2, t, raw);
    }
  }

  lemma PublishedReachable(s: State, s2: State, t: nat, raw: nat)
    requires At(s, t) && s.tasks[t].pc.Made? && TaskInv(s, t) && s2 == Publish(s, t)
    requires raw in s2.heap && s2.heap[raw].Of(t)
    ensures Reachable(s2, raw, s2.tasks[t])
  {
    assert Reachable(s, raw, s.tasks[t]);
  }

  // Write, malloc and free elsewhere, task creation

  lemma WriteKeeps(s: State, t: nat, v: nat, data: seq<Byte>)
    requires Local(s, t) && s.tasks[t].pc.Idle? && v < |s.vars|
    requires Stored(s, s.tasks[t].slot, v) != 0 && |data| == s.vars[v].size
    ensures HasValue(s, s.tasks[t].slot, v) && LocalStep(s, Write(s, t, v, data), t)
  {
    StoredHasValue(s, t, v);
    var raw := s.words[Stored(s, s.tasks[t].slot, v) - WORD];
    WriteTouches(s, Write(s, t, v, data), t, raw, data);
    PcMoved(s, Write(s, t, v, data), t);
  }

  lemma WriteTouches(s: State, s2: State, t: nat, raw: nat, data: seq<Byte>)
    requires HeapInv(s.heap) && LocInv(s) && At(s, t)
    requires raw in s.heap && s.heap[raw].Value? && s.heap[raw].Of(t) && |data| == |s.heap[raw].data|
    requires s2 == s.(heap := s.heap[raw := s.heap[raw].(data := data)])
    ensures HeapInv(s2.heap) && LocInv(s2) && OnlyTouches(s, s2, t) && Untouched(s, s2, t)
  {
  }

  lemma SpawnKeeps(s: State, t: nat)
    requires HeapInv(s.heap) && LocInv(s) && Enabled(s, DoSpawn(t))
    ensures LocalStep(s, s.(tasks := s.tasks[t := Task(0, Idle(0))]), t)
  {
  }

  lemma MallocKeeps(s: State, raw: nat, len: nat, t: nat)
    requires Inv(s) && FreeRegion(s.heap, raw, len)
    ensures Inv(s.(heap := s.heap[raw := Other(len)]))
  {
    var s2 := s.(heap := s.heap[raw := Other(len)]);
    MallocKeepsHeap(s.heap, raw, Other(len));
    ElsewhereKeeps(s, s2, t);
  }

  lemma FreeKeeps(s: State, raw: nat, t: nat)
    requires Inv(s) && raw in s.heap && s.heap[raw].Other?
    ensures Inv(s.(heap := s.heap - {raw}))
  {
    ElsewhereKeeps(s, s.(heap := s.heap - {raw}), t);
  }

  /** Allocations of the rest of the program concern no task. */
  lemma ElsewhereKeeps(s: State, s2: State, t: nat)
    requires Inv(s) && s2 == s.(heap := s2.heap) && HeapInv(s2.heap)
    requires forall raw | raw in s.heap && !s.heap[raw].Other? :: raw in s2.heap && s2.heap[raw] == s.heap[raw]
    requires forall raw | raw in s2.heap && !s2.heap[raw].Other? :: raw in s.heap && s2.heap[raw] == s.heap[raw]
    ensures Inv(s2)
  {
    forall u | u in s2.tasks
      ensures TaskInv(s2, u)
    {
      assert TaskInv(s, u);
      assert Untouched(s, s2, u);
      TaskKept(s, s2, u);
    }
  }

  // Reclaim: the cleanup loop frees live blocks only, and all that the task owns.

  ghost predicate BlocksOf(heap: map<nat, Block>, t: nat, raws: seq<nat>) {
    forall raw | raw in raws :: raw in heap && heap[raw].Of(t)
  }

  ghost predicate Distinct(raws: seq<nat>) {
    forall i, j | 0 <= i < j < |raws| :: raws[i] != raws[j]
  }

  lemma {:induction false} FreeAllRemoves(heap: map<nat, Block>, raws: seq<nat>)
    requires Distinct(raws) && forall raw | raw in raws :: raw in heap
    ensures Freeable(heap, raws)
    ensures FreeAll(heap, raws) == map raw | raw in heap && raw !in raws :: heap[raw]
    decreases |raws|
  {
    if raws != [] {
      assert forall raw | raw in raws[1..] :: raw in raws && raw != raws[0];
      FreeAllRemoves(heap - {raws[0]}, raws[1..]);
      assert forall raw :: raw in raws <==> raw == raws[0] || raw in raws[1..];
    }
  }

  /** Slot i holds a value whose raw pointer is `raw`. */
  predicate Lists(words: map<int, nat>, slots: seq<nat>, i: nat, raw: nat)
    requires BackPointers(words, slots) && i < |slots|
  {
    slots[i] != 0 && words[slots[i] - WORD] == raw
  }

  /** Membership in the cleanup list, slot by slot. */
  lemma {:induction false} RawsOfMembers(words: map<int, nat>, slots: seq<nat>, raw: nat)
    requires BackPointers(words, slots)
    ensures raw in RawsOf(words, slots) <==> exists i: nat :: i < |slots| && Lists(words, slots, i, raw)
    decreases |slots|
  {
    if slots != [] {
      var n := |slots| - 1;
      var rest := slots[..n];
      RawsOfMembers(words, rest, raw);
      forall i: nat | i < n
        ensures Lists(words, rest, i, raw) <==> Lists(words, slots, i, raw)
      {
      }
      assert raw in RawsOf(words, slots) <==> raw in RawsOf(words, rest) || Lists(words, slots, n, raw);
    }
  }

  /** Different slots hold different raw pointers. */
  ghost predicate RawsDiffer(words: map<int, nat>, slots: seq<nat>)
    requires BackPointers(words, slots)
  {
    forall i,
          j | 0 <= i < j < |slots| && slots[i] != 0 && slots[j] != 0 :: words[slots[i] - WORD] != words[slots[j] - WORD]
  }

  lemma {:induction false} RawsOfDistinct(words: map<int, nat>, slots: seq<nat>)
    requires BackPointers(words, slots) && RawsDiffer(words, slots)
    ensures Distinct(RawsOf(words, slots))
    decreases |slots|
  {
    if slots != [] {
      var n := |slots| - 1;
      var rest := slots[..n];
      RawsOfDistinct(words, rest);
      if slots[n] != 0 {
        var last := words[slots[n] - WORD];
        RawsOfMembers(words, rest, last);
        forall i: nat | i < n
          ensures !Lists(words, rest, i, last)
        {
        }
      }
    }
  }

  lemma SlotRaws(s: State, t: nat, slot: nat)
    requires slot != 0 && SlotInv(s, t, slot)
    ensures BackPointers(s.words, OldSlots(s, slot)) && RawsDiffer(s.words, OldSlots(s, slot))
  {
    var slots := s.heap[slot].slots;
    forall i, j | 0 <= i < j < |slots| && slots[i] != 0 && slots[j] != 0
      ensures s.words[slots[i] - WORD] != s.words[slots[j] - WORD]
    {
      assert ValueAt(s, t, i, slots[i]) && ValueAt(s, t, j, slots[j]);
    }
  }

  /** The cleanup list names live blocks of t, each once. */
  lemma CleanupListSound(s: State, t: nat)
    requires At(s, t) && SlotInv(s, t, s.tasks[t].slot)
    ensures var slot := s.tasks[t].slot;
            && (slot != 0 ==> BackPointers(s.words, OldSlots(s, slot)))
            && Distinct(CleanupList(s, slot)) && BlocksOf(s.heap, t, CleanupList(s, slot))
  {
    var slot := s.tasks[t].slot;
    if slot != 0 {
      SlotRaws(s, t, slot);
      var slots := OldSlots(s, slot);
      RawsOfDistinct(s.words, slots);
      forall raw | raw in RawsOf(s.words, slots)
        ensures raw in s.heap && s.heap[raw].Value? && s.heap[raw].Of(t)
      {
        RawsOfMembers(s.words, slots, raw);
        var i: nat :| i < |slots| && Lists(s.words, slots, i, raw);
        assert ValueAt(s, t, i, slots[i]);
      }
    }
  }

  /** No double free, no foreign free: reclaiming a task removes from the heap exactly the blocks
      on its cleanup list, every one of them live and its own. */
  lemma ReclaimFrees(s: State, t: nat)
    requires At(s, t) && SlotInv(s, t, s.tasks[t].slot)
    ensures var slot := s.tasks[t].slot;
            && (slot != 0 ==> BackPointers(s.words, OldSlots(s, slot)))
            && Freeable(s.heap, CleanupList(s, slot))
            && Reclaim(s, t).heap == map raw | raw in s.heap && raw !in CleanupList(s, slot) :: s.heap[raw]
  {
    CleanupListSound(s, t);
    FreeAllRemoves(s.heap, CleanupList(s, s.tasks[t].slot));
  }

  lemma ReclaimKeeps(s: State, t: nat)
    requires Local(s, t)
    ensures s.tasks[t].slot != 0 ==> BackPointers(s.words, OldSlots(s, s.tasks[t].slot))
    ensures LocalStep(s, Reclaim(s, t), t)
  {
    CleanupListSound(s, t);
    ReclaimFrees(s, t);
  }

  /** The blocks that a task suspended in the middle of an access holds only in its locals. */
  function HeldInLocals(s: State, t: nat): set<nat>
    requires At(s, t)
  {
    match s.tasks[t].pc
    case Grown(_, _, _, grown) => {grown}
    case Swapped(_, _, replaced, _) => if replaced != 0 then {replaced} else {}
    case Made(_, _, _, val) => if (val - WORD) in s.words then {s.words[val - WORD]} else {}
    case _ => {}
  }

  lemma ListedOrHeld(s: State, t: nat, raw: nat)
    requires Local(s, t) && raw in s.heap && s.heap[raw].Of(t)
    requires s.tasks[t].slot != 0 ==> BackPointers(s.words, OldSlots(s, s.tasks[t].slot))
    ensures raw in CleanupList(s, s.tasks[t].slot) <==> raw !in HeldInLocals(s, t)
  {
    if s.tasks[t].slot == 0 {
      HeldWithoutArray(s, t, raw);
    } else if s.heap[raw].Value? {
      RawsOfMembers(s.words, OldSlots(s, s.tasks[t].slot), raw);
      ListedValue(s, t, raw);
    } else {
      ArrayNotListed(s, t, raw);
      ArrayHeld(s, t, raw);
    }
  }

  lemma HeldWithoutArray(s: State, t: nat, raw: nat)
    requires Local(s, t) && s.tasks[t].slot == 0 && raw in s.heap && s.heap[raw].Of(t)
    ensures raw in HeldInLocals(s, t)
  {
    assert Reachable(s, raw, s.tasks[t]);
  }

  lemma ArrayHeld(s: State, t: nat, raw: nat)
    requires Local(s, t) && s.tasks[t].slot != 0 && raw in s.heap && s.heap[raw].Array? && s.heap[raw].Of(t)
    ensures raw == s.tasks[t].slot <==> raw !in HeldInLocals(s, t)
  {
    assert Reachable(s, raw, s.tasks[t]);
  }

  lemma ArrayNotListed(s: State, t: nat, raw: nat)
    requires At(s, t) && s.tasks[t].slot != 0 && SlotInv(s, t, s.tasks[t].slot) && raw in s.heap && s.heap[raw].Array?
    requires BackPointers(s.words, OldSlots(s, s.tasks[t].slot))
    ensures raw !in RawsOf(s.words, OldSlots(s, s.tasks[t].slot))
  {
    var slots := OldSlots(s, s.tasks[t].slot);
    RawsOfMembers(s.words, slots, raw);
    forall i: nat | i < |slots|
      ensures !Lists(s.words, slots, i, raw)
    {
      assert slots[i] != 0 ==> ValueAt(s, t, i, slots[i]);
    }
  }

  lemma ListedIsNotHeld(s: State, t: nat, raw: nat, i: nat)
    requires LocInv(s) && At(s, t) && TaskInv(s, t) && raw in s.heap && s.heap[raw].Value?
    requires s.tasks[t].slot != 0 && BackPointers(s.words, OldSlots(s, s.tasks[t].slot))
    requires i < |OldSlots(s, s.tasks[t].slot)| && Lists(s.words, OldSlots(s, s.tasks[t].slot), i, raw)
    ensures raw !in HeldInLocals(s, t)
  {
    assert ValueAt(s, t, i, OldSlots(s, s.tasks[t].slot)[i]);
    if s.tasks[t].pc.Made? {
      assert ValueAt(s, t, s.tasks[t].pc.idx - 1, s.tasks[t].pc.val);
    }
  }

  lemma NotHeldIsListed(s: State, t: nat, raw: nat) returns (i: nat)
    requires LocInv(s) && At(s, t) && TaskInv(s, t) && raw in s.heap && s.heap[raw].Value? && s.heap[raw].Of(t)
    requires s.tasks[t].slot != 0 && BackPointers(s.words, OldSlots(s, s.tasks[t].slot))
    requires raw !in HeldInLocals(s, t)
    ensures i < |OldSlots(s, s.tasks[t].slot)| && Lists(s.words, OldSlots(s, s.tasks[t].slot), i, raw)
  {
    assert Reachable(s, raw, s.tasks[t]);
    i := s.loc[s.heap[raw].v] - 1;
  }

  lemma ListedValue(s: State, t: nat, raw: nat)
    requires LocInv(s) && At(s, t) && TaskInv(s, t) && raw in s.heap && s.heap[raw].Value? && s.heap[raw].Of(t)
    requires s.tasks[t].slot != 0 && BackPointers(s.words, OldSlots(s, s.tasks[t].slot))
    ensures var slots := OldSlots(s, s.tasks[t].slot);
            (exists i: nat :: i < |slots| && Lists(s.words, slots, i, raw)) <==> raw !in HeldInLocals(s, t)
  {
    var slots := OldSlots(s, s.tasks[t].slot);
    if raw !in HeldInLocals(s, t) {
      var i := NotHeldIsListed(s, t, raw);
    } else {
      forall i: nat | i < |slots| && Lists(s.words, slots, i, raw)
        ensures false
      {
        ListedIsNotHeld(s, t, raw, i);
      }
    }
  }

  /** After a join or cancel exactly the blocks held only in locals are left; a task that is not
      inside an access leaves nothing. */
  lemma ReclaimLeaves(s: State, t: nat, raw: nat)
    requires Inv(s) && At(s, t)
    ensures s.tasks[t].slot != 0 ==> BackPointers(s.words, OldSlots(s, s.tasks[t].slot))
    ensures var heap := Reclaim(s, t).heap;
            raw in heap && heap[raw].Of(t) <==> raw in s.heap && s.heap[raw].Of(t) && raw in HeldInLocals(s, t)
    ensures s.tasks[t].pc.Idle? ==> HeldInLocals(s, t) == {}
  {
    assert TaskInv(s, t);
    ReclaimFrees(s, t);
    if raw in s.heap && s.heap[raw].Of(t) {
      ListedOrHeld(s, t, raw);
    }
  }

  // ----- the loops of the runtime -----

  /** `memcpy` of the old slots and `memset` of the rest. */
  method GrowArray(replaced: array<nat>, cap: nat) returns (grown: array<nat>)
    requires replaced.Length <= cap
    ensures fresh(grown) && grown[..] == GrownSlots(replaced[..], cap)
  {
    grown := new nat[cap];
    for i := 0 to replaced.Length
      invariant grown[..i] == replaced[..i]
    {
      grown[i] := replaced[i];
    }
    for i := replaced.Length to cap
      invariant grown[..i] == GrownSlots(replaced[..], i)
    {
      grown[i] := 0;
    }
  }

  lemma RawsOfNext(words: map<int, nat>, slots: seq<nat>, i: nat)
    requires BackPointers(words, slots) && i < |slots|
    ensures RawsOf(words, slots[..i + 1])
         == RawsOf(words, slots[..i]) + (if slots[i] != 0 then [words[slots[i] - WORD]] else [])
  {
    assert slots[..i + 1][..i] == slots[..i];
  }

  /** The cleanup loop: the raw pointers it frees, in order. */
  method CleanupLoop(words: map<int, nat>, slots: array<nat>) returns (freed: seq<nat>)
    requires BackPointers(words, slots[..])
    ensures freed == RawsOf(words, slots[..])
  {
    freed := [];
    ghost var all := slots[..];
    for i := 0 to slots.Length
      invariant BackPointers(words, all[..i]) && freed == RawsOf(words, all[..i])
    {
      RawsOfNext(words, all, i);
      assert slots[i] == all[i];
      if slots[i] != 0 {
        freed := freed + [words[slots[i] - WORD]];
      }
    }
    assert all[..slots.Length] == all;
  }

  // ----- __emutls_register_common -----

  function Registered(c: Control, size: nat, align: nat, templ: Option<seq<Byte>>): Control {
    Control(if c.size < size then size else c.size,
            if c.align < align then align else c.align,
            if c.size < size || (c.size == size && c.templ.None?) then templ else c.templ)
  }

  /** Merging keeps a template only with the size it covers, so no copy runs past its end; and the
      record ends up with the largest size and alignment seen. */
  lemma RegisteredIsValid(c: Control, size: nat, align: nat, templ: Option<seq<Byte>>)
    requires c.Valid() && (templ.Some? ==> |templ.value| >= size)
    ensures var r := Registered(c, size, align, templ);
            && r.Valid() && r.size >= c.size && r.size >= size && (r.size == c.size || r.size == size)
            && r.align >= c.align && r.align >= align && (r.align == c.align || r.align == align)
  {
  }
}
