/** A cancelled access that leaks its block: one run of the per-task storage runtime, state by state.
    Task 1 makes its first access to a one-byte variable and is cancelled between making the value and
    storing it; its array of eight slots is at 1000, its block at 2000. */
module EmutlsCancel {
  import opened Options
  import opened Emutls
  import opened EmutlsRun

  const BYTE := Control(1, 1, None)
  const EMPTY_ARRAY := Array(36, 1, [0, 0, 0, 0, 0, 0, 0, 0])
  const MADE_BLOCK := Value(9, 1, 0, [0])

  function Before(tasks: map<nat, Task>): State {
    State([BYTE], [0], 0, map[], map[], tasks)
  }

  function After(tasks: map<nat, Task>, heap: map<nat, Block>, words: map<int, nat>): State {
    State([BYTE], [1], 1, heap, words, tasks)
  }

  function Running(slot: nat, pc: Pc): map<nat, Task> {
    map[1 := Task(slot, pc)]
  }

  function Start(): State { Before(map[]) }

  function Spawned(): State { Before(Running(0, Idle(0))) }

  function Begun(): State { Before(Running(0, NoIndex(0))) }

  function Assigned(): State { After(Running(0, Indexed(0, 1)), map[], map[]) }

  function WithArray(pc: Pc, slot: nat): State { After(Running(slot, pc), map[1000 := EMPTY_ARRAY], map[]) }

  function Making(): State {
    After(Running(1000, Made(0, 1, 1000, 2004)), map[1000 := EMPTY_ARRAY, 2000 := MADE_BLOCK], map[2000 := 2000])
  }

  function Cancelled(): State { After(map[], map[2000 := MADE_BLOCK], map[2000 := 2000]) }

  ghost predicate Leads(s: State, a: Action, s2: State) {
    RunInv(s) ==> Enabled(s, a) && s2 == Next(s, a)
  }

  lemma Spawns()
    ensures Leads(Start(), DoSpawn(1), Spawned())
  {
  }

  lemma Begins()
    ensures Leads(Spawned(), DoBegin(1, 0), Begun())
  {
    assert Begin(Spawned(), 1, 0) == Begun();
  }

  lemma Assigns()
    ensures Leads(Begun(), DoAssignIndex(1), Assigned())
  {
    assert AssignIndex(Begun(), 1) == Assigned();
  }

  lemma FirstCapacity()
    ensures Capacity(1) == 8 && ArrayLength(8) == 36
  {
  }

  lemma FirstSlots()
    ensures GrownSlots([], 8) == EMPTY_ARRAY.slots
  {
  }

  /** The array allocated for the first variable of a task without one. */
  lemma FirstArray(block: Block)
    requires block == Array(ArrayLength(Capacity(1)), 1, GrownSlots([], Capacity(1)))
    ensures block == EMPTY_ARRAY
  {
    FirstCapacity();
    FirstSlots();
  }

  lemma LooksUp(s: State, raw: nat, block: Block)
    requires At(s, 1) && s.tasks[1] == Task(0, Indexed(0, 1))
    requires block == Array(ArrayLength(Capacity(1)), 1, GrownSlots([], Capacity(1)))
    ensures LookUp(s, 1, raw) == WithTask(s.(heap := s.heap[raw := block]), 1, Task(0, Grown(0, 1, 0, raw)))
  {
  }

  lemma NextIsLookUp(s: State, raw: nat)
    requires At(s, 1) && s.tasks[1].pc.Indexed? && s.tasks[1].pc.idx > 0
    requires FreeRegion(s.heap, raw, ArrayLength(Capacity(s.tasks[1].pc.idx)))
    ensures Leads(s, DoLookUp(1, raw), LookUp(s, 1, raw))
  {
  }

  lemma Grows()
    ensures Leads(Assigned(), DoLookUp(1, 1000), WithArray(Grown(0, 1, 0, 1000), 0))
  {
    var block := Array(ArrayLength(Capacity(1)), 1, GrownSlots([], Capacity(1)));
    FirstCapacity();
    FirstArray(block);
    LooksUp(Assigned(), 1000, block);
    NextIsLookUp(Assigned(), 1000);
  }

  lemma Installs()
    ensures Leads(WithArray(Grown(0, 1, 0, 1000), 0), DoInstall(1), WithArray(Swapped(0, 1, 0, 1000), 1000))
  {
    assert Install(WithArray(Grown(0, 1, 0, 1000), 0), 1) == WithArray(Swapped(0, 1, 0, 1000), 1000);
  }

  lemma Frees()
    ensures Leads(WithArray(Swapped(0, 1, 0, 1000), 1000), DoFreeOld(1), WithArray(Ready(0, 1, 1000), 1000))
  {
    var s := WithArray(Swapped(0, 1, 0, 1000), 1000);
    assert s.heap - {0} == s.heap;
    assert FreeOld(s, 1) == WithArray(Ready(0, 1, 1000), 1000);
  }

  lemma MadeValue()
    ensures CanFetch(WithArray(Ready(0, 1, 1000), 1000), 1)
    ensures Fetch(WithArray(Ready(0, 1, 1000), 1000), 1, 2000) == Making()
    ensures FreeRegion(map[1000 := EMPTY_ARRAY], 2000, 9) && BYTE.RawLength() == 9
  {
    assert BYTE.ValueAddress(2000) == 2004 && Zeros(0) == [] && BYTE.Initial() == [0];
    assert map[1000 := EMPTY_ARRAY][2000 := MADE_BLOCK] == Making().heap;
  }

  lemma Fetches()
    ensures Leads(WithArray(Ready(0, 1, 1000), 1000), DoFetch(1, 2000), Making())
  {
    MadeValue();
  }

  lemma {:induction false} NoRaws(words: map<int, nat>, slots: seq<nat>)
    requires forall i | 0 <= i < |slots| :: slots[i] == 0
    ensures RawsOf(words, slots) == []
    decreases |slots|
  {
    if slots != [] {
      NoRaws(words, slots[..|slots| - 1]);
    }
  }

  lemma OneFreed(heap: map<nat, Block>, raw: nat)
    ensures FreeAll(heap, [raw]) == heap - {raw}
  {
    assert [raw][1..] == [];
    assert FreeAll(heap - {raw}, []) == heap - {raw};
  }

  lemma Listed(s: State)
    requires 1000 in s.heap && s.heap[1000] == EMPTY_ARRAY
    ensures BackPointers(s.words, OldSlots(s, 1000)) && CleanupList(s, 1000) == [1000]
  {
    NoRaws(s.words, EMPTY_ARRAY.slots);
  }

  lemma Reclaimed()
    ensures Reclaim(Making(), 1) == Cancelled()
  {
    var s := Making();
    Listed(s);
    OneFreed(s.heap, 1000);
    assert s.heap - {1000} == Cancelled().heap && s.tasks - {1} == map[];
  }

  lemma NextIsReclaim(s: State)
    requires At(s, 1) && (s.tasks[1].slot != 0 ==> BackPointers(s.words, OldSlots(s, s.tasks[1].slot)))
    ensures Leads(s, DoReclaim(1), Reclaim(s, 1))
  {
  }

  lemma Cancels()
    ensures Leads(Making(), DoReclaim(1), Cancelled())
  {
    Reclaimed();
    NextIsReclaim(Making());
  }

  function CancelledRun(): Run {
    Run([Start(), Spawned(), Begun(), Assigned(), WithArray(Grown(0, 1, 0, 1000), 0),
         WithArray(Swapped(0, 1, 0, 1000), 1000), WithArray(Ready(0, 1, 1000), 1000), Making(), Cancelled()],
        [DoSpawn(1), DoBegin(1, 0), DoAssignIndex(1), DoLookUp(1, 1000), DoInstall(1), DoFreeOld(1), DoFetch(1, 2000),
         DoReclaim(1)])
  }

  lemma StepsFollow(r: Run)
    requires |r.actions| == 8 && |r.states| == 9
    requires forall k | 0 <= k < 8 :: Leads(r.states[k], r.actions[k], r.states[k + 1])
    ensures forall k | 0 <= k < 8 :: r.Follows(k)
  {
    forall k | 0 <= k < 8
      ensures r.Follows(k)
    {
      assert Leads(r.states[k], r.actions[k], r.states[k + 1]);
    }
  }

  lemma RunFollows()
    ensures forall k | 0 <= k < 8 :: CancelledRun().Follows(k)
  {
    Spawns();
    Begins();
    Assigns();
    Grows();
    Installs();
    Frees();
    Fetches();
    Cancels();
    StepsFollow(CancelledRun());
  }

  lemma StartIsSound()
    ensures RunInv(Start())
  {
    assert seq(1, i => 0) == [0];
    InitialIsSound([BYTE]);
  }

  /** At the end of this run the task is gone and its block is still allocated. */
  lemma CancelLeaksBlock()
    ensures CancelledRun().Valid()
    ensures CancelledRun().states[0] == State([Control(1, 1, None)], [0], 0, map[], map[], map[])
    ensures var end := CancelledRun().states[8];
            !At(end, 1) && 2000 in end.heap && end.heap[2000].Of(1)
  {
    RunFollows();
    StartIsSound();
  }
}
