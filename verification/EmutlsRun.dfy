/** The runtime refines a map from (task, variable) to value, in every interleaving. */
module EmutlsRun {
  import opened Emutls

  /** Every enabled step of any task, at any point of any interleaving, keeps the invariant. */
  lemma StepKeeps(s: State, a: Action, s2: State)
    requires Inv(s) && Enabled(s, a) && s2 == Next(s, a)
    ensures Inv(s2)
  {
    if a.DoMalloc? {
      MallocKeeps(s, a.raw, a.len, 0);
    } else if a.DoFree? {
      FreeKeeps(s, a.raw, 0);
    } else {
      ActingStep(s, a, s2);
      StepInv(s, s2, a.t);
    }
  }

  lemma ActingStep(s: State, a: Action, s2: State)
    requires Inv(s) && Enabled(s, a) && s2 == Next(s, a) && !a.DoMalloc? && !a.DoFree?
    ensures LocalStep(s, s2, a.t)
  {
    if a.DoSpawn? {
      SpawnKeeps(s, a.t);
    } else {
      assert TaskInv(s, a.t);
      if a.DoFetch? {
        FetchStep(s, a.t, a.raw, s2);
      } else {
        TaskStep(s, a, s2);
      }
    }
  }

  lemma TaskStep(s: State, a: Action, s2: State)
    requires Inv(s) && Enabled(s, a) && s2 == Next(s, a)
    requires !a.DoMalloc? && !a.DoFree? && !a.DoSpawn? && !a.DoFetch? && Local(s, a.t)
    ensures LocalStep(s, s2, a.t)
  {
    match a
    case DoBegin(t, v) => BeginKeeps(s, t, v);
    case DoAssignIndex(t) => AssignIndexKeeps(s, t);
    case DoLookUp(t, raw) => LookUpKeeps(s, t, raw);
    case DoInstall(t) => InstallKeeps(s, t);
    case DoFreeOld(t) => FreeOldKeeps(s, t);
    case DoPublish(t) => PublishKeeps(s, t);
    case DoWrite(t, v, data) => WriteKeeps(s, t, v, data);
    case DoReclaim(t) => ReclaimKeeps(s, t);
  }

  lemma FetchStep(s: State, t: nat, raw: nat, s2: State)
    requires Local(s, t) && CanFetch(s, t) && s2 == Fetch(s, t, raw)
    requires FreeRegion(s.heap, raw, s.vars[s.tasks[t].pc.v].RawLength())
    ensures LocalStep(s, s2, t)
  {
    var found := s.heap[s.tasks[t].pc.arr].slots[s.tasks[t].pc.idx - 1];
    if found != 0 {
      FetchHit(s, t, found, s2);
    } else {
      FetchMade(s, t, raw, s2);
    }
  }

  lemma FetchHit(s: State, t: nat, found: nat, s2: State)
    requires Local(s, t) && s.tasks[t].pc.Ready? && s2 == WithTask(s, t, s.tasks[t].(pc := Idle(found)))
    ensures LocalStep(s, s2, t)
  {
    HitKeeps(s, t, found);
  }

  lemma FetchMade(s: State, t: nat, raw: nat, s2: State)
    requires Local(s, t) && CanFetch(s, t) && s2 == FetchMiss(s, t, raw, s.vars[s.tasks[t].pc.v])
    requires s.heap[s.tasks[t].pc.arr].slots[s.tasks[t].pc.idx - 1] == 0
    requires FreeRegion(s.heap, raw, s.vars[s.tasks[t].pc.v].RawLength())
    ensures LocalStep(s, s2, t)
  {
    FetchReady(s, t);
    MissKeeps(s, t, raw, s.vars[s.tasks[t].pc.v]);
  }

  // ----- what the invariant means -----

  /** Two different (task, variable) pairs use disjoint, aligned memory inside raw allocations of
      their own. */
  lemma BlocksAreDisjoint(s: State, t: nat, v: nat, u: nat, w: nat)
    requires Inv(s) && At(s, t) && At(s, u) && v < |s.vars| && w < |s.vars| && (t != u || v != w)
    requires Stored(s, s.tasks[t].slot, v) != 0 && Stored(s, s.tasks[u].slot, w) != 0
    ensures Apart(Stored(s, s.tasks[t].slot, v), s.vars[v].size, Stored(s, s.tasks[u].slot, w), s.vars[w].size)
    ensures Stored(s, s.tasks[t].slot, v) % s.vars[v].EffectiveAlign() == 0
    ensures ValueAt(s, t, s.loc[v] - 1, Stored(s, s.tasks[t].slot, v))
  {
    assert TaskInv(s, t) && TaskInv(s, u);
    StoredHasValue(s, t, v);
    StoredHasValue(s, u, w);
  }

  /** Once assigned, a variable's index is its own for good. */
  lemma IndexAssignedOnce(s: State, a: Action, v: nat)
    requires Inv(s) && Enabled(s, a) && v < |s.vars| && s.loc[v] != 0
    ensures |Next(s, a).loc| == |s.loc| && Next(s, a).loc[v] == s.loc[v]
  {
    if a.DoAssignIndex? {
      assert TaskInv(s, a.t);
    }
  }

  // ----- refinement -----

  /** The specification: a map from (task, variable) to value. A new task sees the initial values,
      a write changes one entry, and nothing else changes anything. */
  function Expected(before: seq<Byte>, a: Action, t: nat, v: nat): seq<Byte> {
    if a.DoWrite? && a.t == t && a.v == v then a.data else before
  }

  /** Stored addresses depend on the task's own array only, also when an index is new. */
  lemma StoredKept(s: State, s2: State, u: nat, slot: nat, v: nat)
    requires LocInv(s) && LocInv(s2) && s2.vars == s.vars && SlotInv(s, u, slot) && v < |s.vars|
    requires forall w | 0 <= w < |s.loc| && s.loc[w] != 0 :: s2.loc[w] == s.loc[w]
    requires slot != 0 ==> slot in s2.heap && s2.heap[slot] == s.heap[slot]
    ensures Stored(s2, slot, v) == Stored(s, slot, v)
  {
    if slot != 0 && s.loc[v] == 0 && 0 < s2.loc[v] <= |s.heap[slot].slots| {
      var i := s2.loc[v] - 1;
      assert s.heap[slot].slots[i] != 0 ==> ValueAt(s, u, i, s.heap[slot].slots[i]);
    }
  }

  /** A task whose array, value blocks and words stay reads the same values at the same addresses. */
  lemma ReadKept(s: State, s2: State, u: nat, v: nat)
    requires LocInv(s) && LocInv(s2) && At(s, u) && TaskInv(s, u) && At(s2, u) && Kept(s, s2, u) && v < |s.vars|
    requires s2.tasks[u].slot == s.tasks[u].slot
    requires s.tasks[u].slot != 0 ==> s.tasks[u].slot in s2.heap && s2.heap[s.tasks[u].slot] == s.heap[s.tasks[u].slot]
    ensures Stored(s2, s2.tasks[u].slot, v) == Stored(s, s.tasks[u].slot, v)
    ensures Stored(s, s.tasks[u].slot, v) == 0 ==> Read(s2, u, v) == Read(s, u, v) == s.vars[v].Initial()
    ensures Stored(s, s.tasks[u].slot, v) != 0 ==>
              var raw := s.words[Stored(s, s.tasks[u].slot, v) - WORD];
              raw in s.heap && raw in s2.heap && s2.heap[raw].Value?
              && s.heap[raw].Value? && s.heap[raw].v == v && s.heap[raw].Of(u)
              && Read(s, u, v) == s.heap[raw].data && Read(s2, u, v) == s2.heap[raw].data
  {
    var slot := s.tasks[u].slot;
    StoredKept(s, s2, u, slot, v);
    StoredHasValue(s, u, v);
    if Stored(s, slot, v) != 0 {
      ValueKept(s, s2, u, s.loc[v] - 1, Stored(s, slot, v));
    }
  }

  /** A value block that is not published yet still holds its initial value. */
  predicate MadeInitial(s: State, t: nat) {
    At(s, t) && s.tasks[t].pc.Made? ==>
      var m := s.tasks[t].pc;
      && m.v < |s.vars| && s.vars[m.v].Valid() && (m.val - WORD) in s.words && s.words[m.val - WORD] in s.heap
      && s.heap[s.words[m.val - WORD]].Value? && s.heap[s.words[m.val - WORD]].data == s.vars[m.v].Initial()
  }

  ghost predicate RunInv(s: State) {
    Inv(s) && forall t | t in s.tasks :: MadeInitial(s, t)
  }

  /** What a step means for task u: addresses stay, and values change only by its own writes. */
  ghost predicate Refines(s: State, a: Action, s2: State, u: nat, v: nat) {
    At(s, u) && At(s2, u) && v < |s.vars| && s.vars[v].Valid() ==>
      && s2.vars == s.vars
      && (Stored(s, s.tasks[u].slot, v) != 0 ==> Stored(s2, s2.tasks[u].slot, v) == Stored(s, s.tasks[u].slot, v))
      && Read(s2, u, v) == Expected(Read(s, u, v), a, u, v)
  }

  lemma OtherRefines(s: State, a: Action, s2: State, t: nat, u: nat, v: nat)
    requires LocInv(s) && OnlyTouches(s, s2, t) && LocInv(s2) && u != t && At(s, u) && At(s2, u) && v < |s.vars|
    requires TaskInv(s, u) && (!a.DoWrite? || a.t == t)
    ensures Refines(s, a, s2, u, v)
  {
    ReadKept(s, s2, u, v);
  }

  /** A value block of another task stays, and so does the word that points back to it. */
  lemma OtherBlockKept(s: State, s2: State, t: nat, u: nat, i: nat, val: nat)
    requires OnlyTouches(s, s2, t) && u != t && ValueAt(s, u, i, val)
    ensures (val - WORD) in s2.words && s2.words[val - WORD] == s.words[val - WORD]
    ensures var raw := s.words[val - WORD]; raw in s2.heap && s2.heap[raw] == s.heap[raw]
  {
    assert InBlock(s, val - WORD);
  }

  lemma OtherMadeInitial(s: State, s2: State, t: nat, u: nat)
    requires Inv(s) && OnlyTouches(s, s2, t) && u != t && At(s, u) && At(s2, u) && MadeInitial(s, u)
    ensures MadeInitial(s2, u)
  {
    if s.tasks[u].pc.Made? {
      assert TaskInv(s, u);
      OtherBlockKept(s, s2, t, u, s.tasks[u].pc.idx - 1, s.tasks[u].pc.val);
    }
  }

  /** Steps that leave the slot and its array alone. */
  lemma SameSlotRefines(s: State, a: Action, s2: State, t: nat, v: nat)
    requires LocInv(s) && LocInv(s2) && At(s, t) && TaskInv(s, t) && At(s2, t) && Kept(s, s2, t) && v < |s.vars|
    requires s2.tasks[t].slot == s.tasks[t].slot && !a.DoWrite?
    requires s.tasks[t].slot != 0 ==> s.tasks[t].slot in s2.heap && s2.heap[s.tasks[t].slot] == s.heap[s.tasks[t].slot]
    requires forall raw | raw in s.heap && s.heap[raw].Value? && s.heap[raw].Of(t) ::
               raw in s2.heap && s2.heap[raw] == s.heap[raw]
    ensures Refines(s, a, s2, t, v)
  {
    ReadKept(s, s2, t, v);
  }

  lemma InstallRefines(s: State, t: nat, v: nat)
    requires LocInv(s) && At(s, t) && TaskInv(s, t) && s.tasks[t].pc.Grown? && v < |s.vars|
    ensures Refines(s, DoInstall(t), Install(s, t), t, v)
  {
    var Grown(_, _, replaced, grown) := s.tasks[t].pc;
    assert Stored(s, grown, v) == Stored(s, replaced, v);
    StoredHasValue(s, t, v);
  }

  lemma FetchRefines(s: State, t: nat, raw: nat, v: nat)
    requires Local(s, t) && CanFetch(s, t) && v < |s.vars|
    requires FreeRegion(s.heap, raw, s.vars[s.tasks[t].pc.v].RawLength())
    ensures Refines(s, DoFetch(t, raw), Fetch(s, t, raw), t, v)
  {
    var c := s.vars[s.tasks[t].pc.v];
    WordsKept(s.heap, s.words, raw, c);
    MallocKeepsHeap(s.heap, raw, Value(c.RawLength(), t, s.tasks[t].pc.v, c.Initial()));
    FetchKept(s, t, raw);
    SameSlotRefines(s, DoFetch(t, raw), Fetch(s, t, raw), t, v);
  }

  lemma FetchKept(s: State, t: nat, raw: nat)
    requires CanFetch(s, t) && raw !in s.heap
    requires forall w | w in s.words && InBlock(s, w) :: w != s.vars[s.tasks[t].pc.v].ValueAddress(raw) - WORD
    ensures Kept(s, Fetch(s, t, raw), t)
  {
  }

  lemma FetchedIsInitial(s: State, t: nat, raw: nat)
    requires CanFetch(s, t)
    ensures MadeInitial(Fetch(s, t, raw), t)
  {
  }

  /** Before it is published, the entry is absent and reads as the initial value. */
  lemma UnpublishedReadsInitial(s: State, t: nat)
    requires Local(s, t) && CanPublish(s, t)
    ensures var v := s.tasks[t].pc.v;
            Stored(s, s.tasks[t].slot, v) == 0 && Read(s, t, v) == s.vars[v].Initial()
  {
  }

  lemma PublishedReadsInitial(s: State, t: nat)
    requires Local(s, t) && CanPublish(s, t) && MadeInitial(s, t)
    ensures var m, s2 := s.tasks[t].pc, Publish(s, t);
            && Stored(s2, s2.tasks[t].slot, m.v) == m.val != 0 && s2.tasks[t].pc == Idle(m.val)
            && Read(s2, t, m.v) == s.vars[m.v].Initial()
  {
    assert ValueAt(s, t, s.tasks[t].pc.idx - 1, s.tasks[t].pc.val);
  }

  /** Publishing turns an absent entry, which reads as the initial value, into a block that holds it. */
  lemma PublishOwn(s: State, t: nat)
    requires Local(s, t) && CanPublish(s, t) && MadeInitial(s, t)
    ensures var m, s2 := s.tasks[t].pc, Publish(s, t);
            && Stored(s, s.tasks[t].slot, m.v) == 0 && Stored(s2, s2.tasks[t].slot, m.v) == m.val != 0
            && s2.tasks[t].pc == Idle(m.val)
            && Read(s, t, m.v) == s.vars[m.v].Initial() == Read(s2, t, m.v)
  {
    UnpublishedReadsInitial(s, t);
    PublishedReadsInitial(s, t);
  }

  /** Publishing changes one slot of the task's own array. */
  lemma PublishedSlot(s: State, t: nat, v: nat)
    requires Local(s, t) && CanPublish(s, t) && v < |s.vars| && v != s.tasks[t].pc.v
    ensures var s2 := Publish(s, t);
            s2.tasks[t].slot == s.tasks[t].slot && Stored(s2, s.tasks[t].slot, v) == Stored(s, s.tasks[t].slot, v)
  {
    var idx := s.tasks[t].pc.idx;
    assert s.loc[v] == 0 || s.loc[v] != idx;
  }

  /** And no value block. */
  lemma PublishedBlock(s: State, t: nat, raw: nat)
    requires Local(s, t) && CanPublish(s, t) && raw in s.heap && s.heap[raw].Value?
    ensures var s2 := Publish(s, t);
            s2.words == s.words && s2.vars == s.vars && raw in s2.heap && s2.heap[raw] == s.heap[raw]
  {
  }

  lemma SameBlockSameRead(s: State, s2: State, t: nat, v: nat)
    requires At(s, t) && At(s2, t) && v < |s.vars| && s.vars[v].Valid() && s2.vars == s.vars && s2.words == s.words
    requires Stored(s2, s2.tasks[t].slot, v) == Stored(s, s.tasks[t].slot, v)
    requires Stored(s, s.tasks[t].slot, v) != 0 ==> HasValue(s, s.tasks[t].slot, v)
    requires HasValue(s, s.tasks[t].slot, v) ==>
               var raw := s.words[Stored(s, s.tasks[t].slot, v) - WORD];
               raw in s2.heap && s2.heap[raw] == s.heap[raw]
    ensures Read(s2, t, v) == Read(s, t, v)
  {
  }

  lemma PublishOther(s: State, t: nat, v: nat)
    requires Local(s, t) && CanPublish(s, t) && v < |s.vars| && v != s.tasks[t].pc.v
    ensures var s2 := Publish(s, t);
            && Stored(s2, s2.tasks[t].slot, v) == Stored(s, s.tasks[t].slot, v)
            && Read(s2, t, v) == Read(s, t, v)
  {
    PublishedSlot(s, t, v);
    StoredHasValue(s, t, v);
    if HasValue(s, s.tasks[t].slot, v) {
      PublishedBlock(s, t, s.words[Stored(s, s.tasks[t].slot, v) - WORD]);
    }
    SameBlockSameRead(s, Publish(s, t), t, v);
  }

  lemma PublishRefines(s: State, t: nat, v: nat)
    requires Local(s, t) && CanPublish(s, t) && MadeInitial(s, t) && v < |s.vars|
    ensures Refines(s, DoPublish(t), Publish(s, t), t, v)
  {
    if v == s.tasks[t].pc.v {
      PublishOwn(s, t);
    } else {
      PublishOther(s, t, v);
    }
  }

  /** A write changes no array. */
  lemma WriteKeepsSlots(s: State, t: nat, w: nat, data: seq<Byte>, v: nat)
    requires At(s, t) && HasValue(s, s.tasks[t].slot, w)
    ensures var s2 := Write(s, t, w, data);
            Stored(s2, s2.tasks[t].slot, v) == Stored(s, s.tasks[t].slot, v)
  {
  }

  lemma WriteOwn(s: State, t: nat, w: nat, data: seq<Byte>)
    requires Local(s, t) && w < |s.vars| && HasValue(s, s.tasks[t].slot, w)
    ensures var s2 := Write(s, t, w, data);
            Stored(s2, s2.tasks[t].slot, w) == Stored(s, s.tasks[t].slot, w) && Read(s2, t, w) == data
  {
    WriteKeepsSlots(s, t, w, data, w);
  }

  lemma WriteOther(s: State, t: nat, w: nat, data: seq<Byte>, v: nat)
    requires Local(s, t) && w < |s.vars| && v < |s.vars| && v != w && HasValue(s, s.tasks[t].slot, w)
    ensures var s2 := Write(s, t, w, data);
            && Stored(s2, s2.tasks[t].slot, v) == Stored(s, s.tasks[t].slot, v)
            && Read(s2, t, v) == Read(s, t, v)
  {
    StoredHasValue(s, t, w);
    StoredHasValue(s, t, v);
    WriteKeepsSlots(s, t, w, data, v);
    SameBlockSameRead(s, Write(s, t, w, data), t, v);
  }

  lemma WriteRefines(s: State, t: nat, w: nat, data: seq<Byte>, v: nat)
    requires Local(s, t) && w < |s.vars| && v < |s.vars| && HasValue(s, s.tasks[t].slot, w)
    ensures Refines(s, DoWrite(t, w, data), Write(s, t, w, data), t, v)
  {
    if v == w {
      WriteOwn(s, t, w, data);
    } else {
      WriteOther(s, t, w, data, v);
    }
  }

  lemma BeginRefines(s: State, t: nat, w: nat, v: nat)
    requires Local(s, t) && w < |s.vars| && v < |s.vars|
    ensures Refines(s, DoBegin(t, w), Begin(s, t, w), t, v)
  {
    SameSlotRefines(s, DoBegin(t, w), Begin(s, t, w), t, v);
  }

  lemma AssignIndexRefines(s: State, t: nat, v: nat)
    requires Local(s, t) && s.tasks[t].pc.NoIndex? && s.tasks[t].pc.v < |s.loc| && v < |s.vars|
    ensures Refines(s, DoAssignIndex(t), AssignIndex(s, t), t, v)
  {
    if s.loc[s.tasks[t].pc.v] == 0 {
      AssignedLoc(s, s.tasks[t].pc.v);
    }
    SameSlotRefines(s, DoAssignIndex(t), AssignIndex(s, t), t, v);
  }

  lemma LookUpRefines(s: State, t: nat, raw: nat, v: nat)
    requires Local(s, t) && s.tasks[t].pc.Indexed? && s.tasks[t].pc.idx > 0 && v < |s.vars|
    requires NeedsGrowth(s, t) ==> FreeRegion(s.heap, raw, ArrayLength(Capacity(s.tasks[t].pc.idx)))
    ensures Refines(s, DoLookUp(t, raw), LookUp(s, t, raw), t, v)
  {
    if NeedsGrowth(s, t) {
      MallocKeepsHeap(s.heap, raw, LookUp(s, t, raw).heap[raw]);
    }
    SameSlotRefines(s, DoLookUp(t, raw), LookUp(s, t, raw), t, v);
  }

  lemma FreeOldRefines(s: State, t: nat, v: nat)
    requires Local(s, t) && s.tasks[t].pc.Swapped? && v < |s.vars|
    ensures Refines(s, DoFreeOld(t), FreeOld(s, t), t, v)
  {
    SameSlotRefines(s, DoFreeOld(t), FreeOld(s, t), t, v);
  }

  lemma OwnRefines(s: State, a: Action, s2: State, v: nat)
    requires Inv(s) && Enabled(s, a) && s2 == Next(s, a) && !a.DoMalloc? && !a.DoFree? && !a.DoSpawn? && !a.DoReclaim?
    requires Local(s, a.t) && MadeInitial(s, a.t) && v < |s.vars|
    ensures Refines(s, a, s2, a.t, v)
  {
    match a
    case DoBegin(t, w) => BeginRefines(s, t, w, v);
    case DoAssignIndex(t) => AssignIndexRefines(s, t, v);
    case DoLookUp(t, raw) => LookUpRefines(s, t, raw, v);
    case DoInstall(t) => InstallRefines(s, t, v);
    case DoFreeOld(t) => FreeOldRefines(s, t, v);
    case DoFetch(t, raw) => FetchRefines(s, t, raw, v);
    case DoPublish(t) => PublishRefines(s, t, v);
    case DoWrite(t, w, data) =>
      StoredHasValue(s, t, w);
      WriteRefines(s, t, w, data, v);
  }

  /** Memory of the rest of the program is nobody's thread-local storage. */
  lemma ElsewhereRefines(s: State, a: Action, s2: State, u: nat, v: nat)
    requires Inv(s) && Enabled(s, a) && s2 == Next(s, a) && (a.DoMalloc? || a.DoFree?) && At(s, u) && v < |s.vars|
    ensures Refines(s, a, s2, u, v)
  {
    assert TaskInv(s, u);
    if a.DoMalloc? {
      MallocKeepsHeap(s.heap, a.raw, Other(a.len));
    }
    SameSlotRefines(s, a, s2, u, v);
  }

  /** The refinement: for every enabled step of any task, every other task and the acting one see
      the map of the specification, at addresses that stay while arrays grow. */
  lemma StepRefines(s: State, a: Action, s2: State, u: nat, v: nat)
    requires RunInv(s) && Enabled(s, a) && s2 == Next(s, a) && At(s, u) && At(s2, u) && v < |s.vars|
    ensures Refines(s, a, s2, u, v)
  {
    if a.DoMalloc? || a.DoFree? {
      ElsewhereRefines(s, a, s2, u, v);
    } else {
      ActingStep(s, a, s2);
      if u == a.t {
        assert TaskInv(s, u);
        OwnRefines(s, a, s2, v);
      } else {
        assert TaskInv(s, u);
        OtherRefines(s, a, s2, a.t, u, v);
      }
    }
  }

  lemma ElsewhereMade(s: State, s2: State, u: nat)
    requires At(s, u) && TaskInv(s, u) && MadeInitial(s, u) && s2 == s.(heap := s2.heap)
    requires forall raw | raw in s.heap && !s.heap[raw].Other? :: raw in s2.heap && s2.heap[raw] == s.heap[raw]
    ensures MadeInitial(s2, u)
  {
  }

  lemma OtherMemoryMade(s: State, a: Action, s2: State, u: nat)
    requires Inv(s) && Enabled(s, a) && s2 == Next(s, a) && (a.DoMalloc? || a.DoFree?) && At(s, u) && MadeInitial(s, u)
    ensures MadeInitial(s2, u)
  {
    assert TaskInv(s, u);
    if a.DoMalloc? {
      MallocKeepsHeap(s.heap, a.raw, Other(a.len));
    }
    ElsewhereMade(s, s2, u);
  }

  lemma OwnMade(s: State, a: Action, s2: State)
    requires Inv(s) && Enabled(s, a) && s2 == Next(s, a) && !a.DoMalloc? && !a.DoFree?
    requires At(s2, a.t) && s2.tasks[a.t].pc.Made?
    ensures MadeInitial(s2, a.t)
  {
    assert a.DoFetch?;
    assert TaskInv(s, a.t);
    FetchedIsInitial(s, a.t, a.raw);
  }

  lemma MadeInitialKept(s: State, a: Action, s2: State, u: nat)
    requires RunInv(s) && Enabled(s, a) && s2 == Next(s, a) && At(s2, u) && s2.tasks[u].pc.Made?
    ensures MadeInitial(s2, u)
  {
    if a.DoMalloc? || a.DoFree? {
      OtherMemoryMade(s, a, s2, u);
    } else if u == a.t {
      OwnMade(s, a, s2);
    } else {
      ActingStep(s, a, s2);
      OtherMadeInitial(s, s2, a.t, u);
    }
  }

  lemma RunInvStep(s: State, a: Action, s2: State)
    requires RunInv(s) && Enabled(s, a) && s2 == Next(s, a)
    ensures RunInv(s2)
  {
    StepKeeps(s, a, s2);
    forall u | u in s2.tasks && s2.tasks[u].pc.Made?
      ensures MadeInitial(s2, u)
    {
      MadeInitialKept(s, a, s2, u);
    }
  }

  /** A task that was just created sees the template or zeros in every variable. */
  lemma FreshTaskReadsInitial(s: State, t: nat, v: nat)
    requires RunInv(s) && Enabled(s, DoSpawn(t)) && v < |s.vars|
    ensures s.vars[v].Valid() && Read(Next(s, DoSpawn(t)), t, v) == s.vars[v].Initial()
  {
  }

  // ----- whole runs -----

  /** `states[k]` is the state before action k. */
  datatype Run = Run(states: seq<State>, actions: seq<Action>)
  {
    ghost predicate Valid() {
      && |states| == |actions| + 1 && RunInv(states[0])
      && forall k | 0 <= k < |actions| :: Follows(k)
    }

    ghost predicate Follows(k: nat)
      requires k < |actions| && |states| == |actions| + 1
    {
      RunInv(states[k]) ==> Enabled(states[k], actions[k]) && states[k + 1] == Next(states[k], actions[k])
    }
  }

  /** The invariant holds at every moment of every run. */
  lemma {:induction false} RunInvAlways(r: Run, k: nat)
    requires r.Valid() && k <= |r.actions|
    ensures RunInv(r.states[k])
  {
    if k > 0 {
      RunInvAlways(r, k - 1);
      assert r.Follows(k - 1);
      RunInvStep(r.states[k - 1], r.actions[k - 1], r.states[k]);
    }
  }

  /** Task t exists at every moment from i to j. */
  ghost predicate Lives(r: Run, t: nat, i: nat, j: nat)
    requires r.Valid() && i <= j <= |r.actions|
  {
    forall k | i <= k <= j :: At(r.states[k], t)
  }

  function LastWrite(r: Run, t: nat, v: nat, i: nat, j: nat, first: seq<Byte>): seq<Byte>
    requires i <= j <= |r.actions|
    decreases j - i
  {
    if i == j then first else Expected(LastWrite(r, t, v, i, j - 1, first), r.actions[j - 1], t, v)
  }

  lemma RefinesAt(r: Run, t: nat, v: nat, k: nat)
    requires r.Valid() && k < |r.actions| && At(r.states[k], t) && At(r.states[k + 1], t) && v < |r.states[k].vars|
    ensures Refines(r.states[k], r.actions[k], r.states[k + 1], t, v)
    ensures r.states[k + 1].vars == r.states[k].vars && r.states[k].vars[v].Valid()
  {
    RunInvAlways(r, k);
    assert r.Follows(k);
    StepRefines(r.states[k], r.actions[k], r.states[k + 1], t, v);
  }

  lemma VarsKept(r: Run, t: nat, v: nat, k: nat)
    requires r.Valid() && k < |r.actions| && At(r.states[k], t) && At(r.states[k + 1], t) && v < |r.states[k].vars|
    ensures r.states[k + 1].vars == r.states[k].vars && r.states[k].vars[v].Valid()
  {
    RefinesAt(r, t, v, k);
  }

  /** The address a task got for a variable stays the same for the rest of its life, however much
      its array grows and whatever other tasks do. */
  lemma {:induction false} AddressIsStable(r: Run, t: nat, v: nat, i: nat, j: nat)
    requires r.Valid() && i <= j <= |r.actions| && Lives(r, t, i, j) && v < |r.states[i].vars|
    requires Stored(r.states[i], r.states[i].tasks[t].slot, v) != 0
    ensures r.states[j].vars == r.states[i].vars
    ensures Stored(r.states[j], r.states[j].tasks[t].slot, v) == Stored(r.states[i], r.states[i].tasks[t].slot, v)
    decreases j - i
  {
    if i < j {
      AddressIsStable(r, t, v, i, j - 1);
      RefinesAt(r, t, v, j - 1);
    }
  }

  /** What a step of a run does to one entry of the map. */
  lemma ReadStep(r: Run, t: nat, v: nat, k: nat, before: seq<Byte>, after: seq<Byte>)
    requires r.Valid() && k < |r.actions| && At(r.states[k], t) && At(r.states[k + 1], t) && v < |r.states[k].vars|
    requires r.states[k].vars[v].Valid() && r.states[k + 1].vars == r.states[k].vars
    requires before == Read(r.states[k], t, v) && after == Read(r.states[k + 1], t, v)
    ensures after == Expected(before, r.actions[k], t, v)
  {
    RefinesAt(r, t, v, k);
  }

  /** A task reads in each variable its own last write, or what it read before any: never what
      another task wrote, in any interleaving. */
  lemma {:induction false} ReadsOwnLastWrite(r: Run, t: nat, v: nat, i: nat, j: nat)
    requires r.Valid() && i <= j <= |r.actions| && Lives(r, t, i, j) && v < |r.states[i].vars|
    requires r.states[i].vars[v].Valid()
    ensures r.states[j].vars == r.states[i].vars
    ensures Read(r.states[j], t, v) == LastWrite(r, t, v, i, j, Read(r.states[i], t, v))
    decreases j - i
  {
    if i < j {
      ReadsOwnLastWrite(r, t, v, i, j - 1);
      VarsKept(r, t, v, j - 1);
      ReadStep(r, t, v, j - 1, Read(r.states[j - 1], t, v), Read(r.states[j], t, v));
    }
  }

  /** The step that ends an access leaves the task with the address stored for the variable it asked
      for, whether it found the value or has just made it. */
  lemma AccessReturnsStored(s: State, a: Action, s2: State)
    requires RunInv(s) && Enabled(s, a) && s2 == Next(s, a) && (a.DoFetch? || a.DoPublish?)
    ensures s.tasks[a.t].pc.Ready? || s.tasks[a.t].pc.Made?
    ensures At(s2, a.t) && (a.DoPublish? ==> s2.tasks[a.t].pc.Idle?)
    ensures s2.tasks[a.t].pc.Idle? ==>
              var address := s2.tasks[a.t].pc.returned;
              address != 0 && address == Stored(s2, s2.tasks[a.t].slot, s.tasks[a.t].pc.v)
  {
    assert TaskInv(s, a.t);
    if a.DoFetch? {
      FetchReturns(s, a.t, a.raw, s2);
    } else {
      assert MadeInitial(s, a.t);
      PublishOwn(s, a.t);
    }
  }

  lemma FetchReturns(s: State, t: nat, raw: nat, s2: State)
    requires LocInv(s) && At(s, t) && TaskInv(s, t) && CanFetch(s, t) && s2 == Fetch(s, t, raw)
    ensures s2.tasks[t].pc.Idle? ==>
              s2.tasks[t].pc.returned != 0 && s2.tasks[t].pc.returned == Stored(s2, s2.tasks[t].slot, s.tasks[t].pc.v)
  {
    FetchReady(s, t);
  }

  /** The image starts with unassigned index words and no task. */
  lemma InitialIsSound(vars: seq<Control>)
    requires forall c | c in vars :: c.Valid()
    ensures RunInv(State(vars, seq(|vars|, i => 0), 0, map[], map[], map[]))
  {
  }
}
