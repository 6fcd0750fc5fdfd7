/**
  Paging out and in.  A page that is out has an entry that is not present and holds, in place of
  the frame, the number of its slot in the page file; slot zero is never used.
*/
module PageFile {
  import opened Common
  import opened PhysicalAllocator
  import opened PageTables

  /** The address space, the page file as a sequence of page contents, and which slots are taken. */
  datatype PageSystem = PageSystem(space: Paging, file: seq<Table>, slots: seq<bool>)

  datatype Status = Done | OutOfMemory | Invalid

  /** The first free slot from `i` on. */
  function FreeSlot(slots: seq<bool>, i: nat): (r: Option<nat>)
    ensures r.Some? ==> i <= r.value < |slots| && !slots[r.value] && forall k :: i <= k < r.value ==> slots[k]
    ensures r.None? ==> forall k :: i <= k < |slots| ==> slots[k]
    decreases |slots| - i
  {
    if i >= |slots| then None else if !slots[i] then Some(i) else FreeSlot(slots, i + 1)
  }

  /** The flags of an entry without PRESENT. */
  function QuietFlags(e: nat): (f: nat)
    ensures f < PAGE_SIZE && !Present(f)
  {
    e % PAGE_SIZE - e % 2
  }

  /** The frame, or the slot, of an entry. */
  function NumberOf(e: nat): nat {
    e / PAGE_SIZE
  }

  lemma EntryParts(k: nat, f: nat)
    requires f < PAGE_SIZE
    ensures EntryFor(k * PAGE_SIZE, f) % PAGE_SIZE == f && NumberOf(EntryFor(k * PAGE_SIZE, f)) == k
    ensures Present(EntryFor(k * PAGE_SIZE, f)) <==> Present(f)
    ensures QuietFlags(EntryFor(k * PAGE_SIZE, f)) == QuietFlags(f)
  {
  }

  /**
    Writes the page to a free slot, gives its frame back and lets the entry name the slot.  When
    the frame cannot be given back the slot stays taken.
  */
  function PageOut(s: PageSystem, v: nat): (PageSystem, Status)
    requires PhysicalAllocator.Valid(s.space.frames) && |s.file| == |s.slots| && FreeSlot(s.slots, 1).Some?
    requires var g := NumberOf(Lookup(s.space, PageOf(v))); g in s.space.mem && g < |s.space.frames.flags|
  {
    var e := Lookup(s.space, PageOf(v));
    var slot := FreeSlot(s.slots, 1).value;
    var saved := s.(file := s.file[slot := s.space.mem[NumberOf(e)]], slots := s.slots[slot := true]);
    FreeValid(s.space.frames, NumberOf(e));
    match Free(s.space.frames, NumberOf(e))
    case (frames, Success(_)) =>
      (saved.(space := MapPage(s.space.(frames := frames), v, slot * PAGE_SIZE, QuietFlags(e)).0), Done)
    case (_, _) => (saved, Invalid)
  }

  /** Maps a new frame, fills it from the slot and frees the slot. */
  function PageIn(s: PageSystem, v: nat): (PageSystem, Status)
    requires PhysicalAllocator.Valid(s.space.frames) && |s.file| == |s.slots|
  {
    var e := Lookup(s.space, PageOf(v));
    var slot := NumberOf(e);
    if slot == 0 || slot >= |s.slots| || !s.slots[slot] then (s, Invalid)
    else
      AllocateValid(s.space.frames);
      match Allocate(s.space.frames)
      case (frames, Success(f)) =>
        var mapped := MapPage(s.space.(frames := frames), v, f * PAGE_SIZE, QuietFlags(e) + 1).0;
        var loaded := mapped.(mem := mapped.mem[f := s.file[slot]]);
        (s.(space := loaded, slots := s.slots[slot := false]), Done)
      case (_, _) => (s, OutOfMemory)
  }

  // --- the invariant

  /** The page is out, in the given slot. */
  predicate IsOut(s: PageSystem, n: nat) {
    Lookup(s.space, n) != 0 && !Present(Lookup(s.space, n))
  }

  predicate Page(n: nat) {
    n < 0x10_0000_0000 && Ordinary(n)
  }

  /** Pages that are out hold different slots, which are taken and not zero. */
  ghost predicate SlotsApart(s: PageSystem) {
    && (forall n :: Page(n) && IsOut(s, n) ==> SlotTaken(s, NumberOf(Lookup(s.space, n))))
    && (forall n, m :: Page(n) && Page(m) && n != m && IsOut(s, n) && IsOut(s, m) ==>
         NumberOf(Lookup(s.space, n)) != NumberOf(Lookup(s.space, m)))
  }

  predicate SlotTaken(s: PageSystem, slot: nat) {
    0 < slot < |s.slots| && s.slots[slot]
  }

  ghost predicate Ok(s: PageSystem, owner: map<Pfn, Path>) {
    && Tree(s.space, owner)
    && |s.file| == |s.slots| && (forall k :: 0 <= k < |s.file| ==> |s.file[k]| == ENTRIES)
    && |s.space.frames.flags| <= FRAME_LIMIT && (forall f :: 0 <= f < |s.space.frames.flags| ==> IsTable(s.space.mem, f))
    && SlotsApart(s)
  }

  /** The page is present, in a frame of memory that is not a table. */
  predicate InMemory(s: PageSystem, owner: map<Pfn, Path>, n: nat) {
    var e := Lookup(s.space, n);
    Present(e) && NumberOf(e) < |s.space.frames.flags| && NumberOf(e) !in owner
  }

  // --- one page out

  /** The effect of a page-out on the other pages, the slots and the file. */
  ghost predicate OutEffect(s: PageSystem, r: PageSystem, v: nat, slot: nat) {
    && |r.file| == |s.file| && |r.slots| == |s.slots|
    && slot < |s.slots| == |s.file| && 0 < slot && !s.slots[slot]
    && r.slots == s.slots[slot := true]
    && (forall k :: 0 <= k < |s.file| && k != slot ==> r.file[k] == s.file[k])
    && (forall n :: Page(n) && n != PageOf(v) ==> Lookup(r.space, n) == Lookup(s.space, n))
  }

  lemma FreeFacts(frames: Frames, f: Pfn)
    requires PhysicalAllocator.Valid(frames) && f < |frames.flags|
    ensures PhysicalAllocator.Valid(Free(frames, f).0) && |Free(frames, f).0.flags| == |frames.flags|
    ensures forall g <- Free(frames, f).0.free :: g in frames.free || g == f
  {
    FreeValid(frames, f);
  }

  /** The page table part of a page-out whose frame goes back. */
  lemma OutSpace(s: PageSystem, owner: map<Pfn, Path>, v: nat, frames: Frames, p: nat, f: nat)
    requires Ok(s, owner) && Ordinary(PageOf(v)) && InMemory(s, owner, PageOf(v)) && f < PAGE_SIZE
    requires frames == Free(s.space.frames, NumberOf(Lookup(s.space, PageOf(v)))).0
    ensures PhysicalAllocator.Valid(frames)
    ensures var r := MapPage(s.space.(frames := frames), v, p, f).0;
      && Tree(r, owner) && r.root == s.space.root && r.frames == frames && r.mem.Keys == s.space.mem.Keys
      && Lookup(r, PageOf(v)) == EntryFor(p, f)
      && (forall n :: Page(n) && n != PageOf(v) ==> Lookup(r, n) == Lookup(s.space, n))
      && (forall g <- s.space.mem :: g !in owner ==> r.mem[g] == s.space.mem[g])
  {
    hide PhysicalAllocator.Valid, Lookup, MapPage, SlotsApart, Free;
    var g := NumberOf(Lookup(s.space, PageOf(v)));
    FreeFacts(s.space.frames, g);
    var m := s.space.(frames := frames);
    SameTables(s.space, m, owner);
    Remap(m, owner, v, p, f);
    forall n | Page(n)
      ensures Lookup(MapPage(m, v, p, f).0, n) == if n == PageOf(v) then EntryFor(p, f) else Lookup(s.space, n)
    {
      MapPageLookup(m, v, p, f, n);
    }
    assert Page(PageOf(v));
  }

  /** What a page-out needs: a page in memory, and a free slot. */
  predicate MayGoOut(s: PageSystem, owner: map<Pfn, Path>, v: nat) {
    Ordinary(PageOf(v)) && InMemory(s, owner, PageOf(v)) && FreeSlot(s.slots, 1).Some?
  }

  lemma FrameInMemory(s: PageSystem, owner: map<Pfn, Path>, n: nat)
    requires Ok(s, owner) && InMemory(s, owner, n)
    ensures IsTable(s.space.mem, NumberOf(Lookup(s.space, n)))
  {
    hide Tree, SlotsApart, Lookup;
  }

  /** The page is out in the slot, with its contents there and its flags in the entry. */
  predicate SavedIn(s: PageSystem, n: nat, slot: nat, flags: nat, contents: Table) {
    && flags < PAGE_SIZE && Lookup(s.space, n) == EntryFor(slot * PAGE_SIZE, flags)
    && !Present(flags) && SlotTaken(s, slot) && slot < |s.file| && s.file[slot] == contents
  }

  lemma OutResult(s: PageSystem, owner: map<Pfn, Path>, v: nat)
    requires Ok(s, owner) && MayGoOut(s, owner, v)
    ensures IsTable(s.space.mem, NumberOf(Lookup(s.space, PageOf(v))))
    ensures var e := Lookup(s.space, PageOf(v));
      var slot := FreeSlot(s.slots, 1).value;
      var (r, status) := PageOut(s, v);
      && Tree(r.space, owner) && r.space.mem.Keys == s.space.mem.Keys && OutEffect(s, r, v, slot)
      && |r.space.frames.flags| == |s.space.frames.flags|
      && (forall g <- s.space.mem :: g !in owner ==> r.space.mem[g] == s.space.mem[g])
      && r.file[slot] == s.space.mem[NumberOf(e)]
      && match status
         case Done => SavedIn(r, PageOf(v), slot, QuietFlags(e), s.space.mem[NumberOf(e)])
         case Invalid => r.space == s.space
         case OutOfMemory => false
  {
    hide Tree, PhysicalAllocator.Valid, Lookup, MapPage, SlotsApart, Free, FreeSlot;
    FrameInMemory(s, owner, PageOf(v));
    TreeFrames(s.space, owner);
    FreeStatus(s.space.frames, NumberOf(Lookup(s.space, PageOf(v))));
    FreeFacts(s.space.frames, NumberOf(Lookup(s.space, PageOf(v))));
    var frames := Free(s.space.frames, NumberOf(Lookup(s.space, PageOf(v)))).0;
    OutSpace(s, owner, v, frames, FreeSlot(s.slots, 1).value * PAGE_SIZE, QuietFlags(Lookup(s.space, PageOf(v))));
  }

  lemma TreeFrames(s: Paging, owner: map<Pfn, Path>)
    requires Tree(s, owner)
    ensures PhysicalAllocator.Valid(s.frames)
  {
    hide PhysicalAllocator.Valid;
  }

  lemma FreeStatus(frames: Frames, f: Pfn)
    requires f < |frames.flags|
    ensures Free(frames, f).1 == InvalidParameter ==> Free(frames, f).0 == frames
    ensures Free(frames, f).1 != NoMemory
  {
  }

  /** Taking a slot nobody uses for one more page keeps the slots apart. */
  lemma OutKeepsSlots(s: PageSystem, r: PageSystem, v: nat, slot: nat)
    requires SlotsApart(s) && OutEffect(s, r, v, slot) && Page(PageOf(v))
    requires Lookup(r.space, PageOf(v)) == Lookup(s.space, PageOf(v)) || NumberOf(Lookup(r.space, PageOf(v))) == slot
    requires Lookup(r.space, PageOf(v)) == Lookup(s.space, PageOf(v)) ==> !IsOut(s, PageOf(v))
    ensures SlotsApart(r)
  {
  }

  /** Every page-out keeps the invariant. */
  lemma OutKeeps(s: PageSystem, owner: map<Pfn, Path>, v: nat)
    requires Ok(s, owner) && MayGoOut(s, owner, v)
    ensures NumberOf(Lookup(s.space, PageOf(v))) in s.space.mem && Ok(PageOut(s, v).0, owner)
  {
    hide Tree, PhysicalAllocator.Valid, Lookup, MapPage, SlotsApart, PageOut, FreeSlot;
    OutResult(s, owner, v);
    TreeFrames(s.space, owner);
    var r := PageOut(s, v).0;
    var slot := FreeSlot(s.slots, 1).value;
    EntryParts(slot, QuietFlags(Lookup(s.space, PageOf(v))));
    OutKeepsSlots(s, r, v, slot);
    DataFramesStay(s, r, owner);
  }

  /** Frames stay tables of full size when neither tables nor data lose entries. */
  lemma DataFramesStay(s: PageSystem, r: PageSystem, owner: map<Pfn, Path>)
    requires Ok(s, owner) && Tree(r.space, owner) && |r.space.frames.flags| == |s.space.frames.flags|
    requires r.space.mem.Keys == s.space.mem.Keys
    requires forall g <- s.space.mem :: g !in owner ==> |r.space.mem[g]| == |s.space.mem[g]|
    ensures forall f :: 0 <= f < |r.space.frames.flags| ==> IsTable(r.space.mem, f)
  {
    hide PhysicalAllocator.Valid, SlotsApart, Lookup;
    forall f | 0 <= f < |r.space.frames.flags|
      ensures IsTable(r.space.mem, f)
    {
      assert IsTable(s.space.mem, f);
      if f in owner {
        assert TableOk(r.space, owner, f);
      }
    }
  }

  // --- one page in

  /** The effect of a page-in on the other pages, the slots and the file. */
  ghost predicate InEffect(s: PageSystem, r: PageSystem, v: nat, slot: nat) {
    && r.file == s.file && slot < |s.slots| && r.slots == s.slots[slot := false]
    && (forall n :: Page(n) && n != PageOf(v) ==> Lookup(r.space, n) == Lookup(s.space, n))
  }

  /** The page table part of a page-in: the new frame is mapped and then filled. */
  lemma InSpace(s: PageSystem, owner: map<Pfn, Path>, v: nat, f: Pfn, frames: Frames, flags: nat, contents: Table)
    requires Ok(s, owner) && Page(PageOf(v)) && IsOut(s, PageOf(v)) && flags < PAGE_SIZE && |contents| == ENTRIES
    requires Allocate(s.space.frames) == (frames, Success(f))
    ensures PhysicalAllocator.Valid(frames) && |frames.flags| == |s.space.frames.flags|
    ensures var mapped := MapPage(s.space.(frames := frames), v, f * PAGE_SIZE, flags).0;
      var r := mapped.(mem := mapped.mem[f := contents]);
      && Tree(r, owner) && r.mem.Keys == s.space.mem.Keys && r.frames == frames
      && Lookup(r, PageOf(v)) == EntryFor(f * PAGE_SIZE, flags) && r.mem[f] == contents
      && (forall n :: Page(n) && n != PageOf(v) ==> Lookup(r, n) == Lookup(s.space, n))
      && (forall g <- s.space.mem :: g !in owner && g != f ==> r.mem[g] == s.space.mem[g])
      && f !in owner
  {
    hide PhysicalAllocator.Valid, Lookup, MapPage, SlotsApart, Allocate;
    AllocateSuccess(s.space.frames, f);
    AllocateFacts(s.space.frames);
    assert f in s.space.frames.free;
    var m := s.space.(frames := frames);
    SameTables(s.space, m, owner);
    Remap(m, owner, v, f * PAGE_SIZE, flags);
    var mapped := MapPage(m, v, f * PAGE_SIZE, flags).0;
    forall n | Page(n)
      ensures Lookup(mapped, n) == if n == PageOf(v) then EntryFor(f * PAGE_SIZE, flags) else Lookup(s.space, n)
    {
      MapPageLookup(m, v, f * PAGE_SIZE, flags, n);
    }
    TablesInMemory(mapped, owner);
    SameTables(mapped, mapped.(mem := mapped.mem[f := contents]), owner);
  }

  lemma AllocateSuccess(frames: Frames, f: Pfn)
    requires PhysicalAllocator.Valid(frames) && Allocate(frames).1 == Success(f)
    ensures frames.free != [] && f == frames.free[0] && |Allocate(frames).0.flags| == |frames.flags|
  {
    assert f in frames.free;
  }

  lemma TablesInMemory(s: Paging, owner: map<Pfn, Path>)
    requires Tree(s, owner)
    ensures forall x <- owner :: IsTable(s.mem, x)
  {
  }

  /** The page is in the frame `f`, with the contents of its slot and its quiet flags. */
  ghost predicate Loaded(s: PageSystem, r: PageSystem, owner: map<Pfn, Path>, v: nat, f: Pfn) {
    var e := Lookup(s.space, PageOf(v));
    && f in r.space.mem && r.space.mem.Keys == s.space.mem.Keys && NumberOf(e) < |s.file| && f !in owner
    && InEffect(s, r, v, NumberOf(e))
    && Lookup(r.space, PageOf(v)) == EntryFor(f * PAGE_SIZE, QuietFlags(e) + 1)
    && r.space.mem[f] == s.file[NumberOf(e)]
    && forall g <- s.space.mem :: g !in owner && g != f ==> r.space.mem[g] == s.space.mem[g]
  }

  lemma InResult(s: PageSystem, owner: map<Pfn, Path>, v: nat)
    requires Ok(s, owner) && Page(PageOf(v)) && IsOut(s, PageOf(v))
    ensures PhysicalAllocator.Valid(s.space.frames)
    ensures var e := Lookup(s.space, PageOf(v));
      var (r, status) := PageIn(s, v);
      && SlotTaken(s, NumberOf(e)) && Tree(r.space, owner) && r.space.mem.Keys == s.space.mem.Keys
      && |r.space.frames.flags| == |s.space.frames.flags|
      && (s.space.frames.free == [] <==> status == OutOfMemory) && status != Invalid
      && (status == OutOfMemory ==> r == s)
      && (status == Done ==> Loaded(s, r, owner, v, s.space.frames.free[0]))
  {
    hide Tree, PhysicalAllocator.Valid, Lookup, MapPage, Allocate;
    TreeFrames(s.space, owner);
    var e := Lookup(s.space, PageOf(v));
    assert SlotTaken(s, NumberOf(e));
    if s.space.frames.free == [] {
      AllocateFails(s.space.frames);
    } else {
      AllocateFacts(s.space.frames);
      var f := s.space.frames.free[0];
      InSpace(s, owner, v, f, Allocate(s.space.frames).0, QuietFlags(e) + 1, s.file[NumberOf(e)]);
    }
  }

  lemma InKeepsSlots(s: PageSystem, r: PageSystem, v: nat, slot: nat)
    requires SlotsApart(s) && InEffect(s, r, v, slot) && Page(PageOf(v)) && IsOut(s, PageOf(v))
    requires slot == NumberOf(Lookup(s.space, PageOf(v))) && Present(Lookup(r.space, PageOf(v)))
    ensures SlotsApart(r)
  {
  }

  /** Every page-in keeps the invariant. */
  lemma InKeeps(s: PageSystem, owner: map<Pfn, Path>, v: nat)
    requires Ok(s, owner) && Page(PageOf(v)) && IsOut(s, PageOf(v))
    ensures PhysicalAllocator.Valid(s.space.frames) && Ok(PageIn(s, v).0, owner)
  {
    hide Tree, PhysicalAllocator.Valid, Lookup, MapPage, SlotsApart, PageIn;
    InResult(s, owner, v);
    var (r, status) := PageIn(s, v);
    if status == Done {
      var f := s.space.frames.free[0];
      var e := Lookup(s.space, PageOf(v));
      EntryParts(f, QuietFlags(e) + 1);
      InKeepsSlots(s, r, v, NumberOf(e));
      FreeFrameInMemory(s.space, owner);
      DataFramesStay(s, r, owner);
    }
  }

  /** A page-in is refused exactly when the entry names slot zero, none at all, or one that is free; then nothing changes. */
  lemma InRefused(s: PageSystem, v: nat)
    requires PhysicalAllocator.Valid(s.space.frames) && |s.file| == |s.slots|
    ensures PageIn(s, v).1 == Invalid <==>
      var slot := NumberOf(Lookup(s.space, PageOf(v))); slot == 0 || slot >= |s.slots| || !s.slots[slot]
    ensures PageIn(s, v).1 == Invalid ==> PageIn(s, v).0 == s
  {
    hide PhysicalAllocator.Valid, Lookup, MapPage, PageOf;
    AllocateKinds(s.space.frames);
  }

  lemma AllocateKinds(frames: Frames)
    requires PhysicalAllocator.Valid(frames)
    ensures Allocate(frames).1 != InvalidParameter
  {
    hide PhysicalAllocator.Valid;
  }

  lemma FreeFrameInMemory(s: Paging, owner: map<Pfn, Path>)
    requires Tree(s, owner) && s.frames.free != []
    ensures IsTable(s.mem, s.frames.free[0])
  {
  }

  // --- runs

  /** Page-outs of pages in memory, and page-ins of pages that are out, as a page fault asks for them. */
  datatype Step = OutStep(v: nat) | InStep(v: nat)

  predicate Enabled(s: PageSystem, owner: map<Pfn, Path>, step: Step) {
    match step
    case OutStep(v) => MayGoOut(s, owner, v)
    case InStep(v) => Page(PageOf(v)) && IsOut(s, PageOf(v))
  }

  ghost function After(s: PageSystem, owner: map<Pfn, Path>, step: Step): PageSystem
    requires Ok(s, owner)
  {
    if !Enabled(s, owner, step) then s
    else match step
      case OutStep(v) => OutKeeps(s, owner, v); PageOut(s, v).0
      case InStep(v) => PageIn(s, v).0
  }

  lemma AfterOk(s: PageSystem, owner: map<Pfn, Path>, step: Step)
    requires Ok(s, owner)
    ensures Ok(After(s, owner, step), owner)
  {
    hide Ok, PageOut, PageIn, MayGoOut, IsOut;
    if Enabled(s, owner, step) {
      match step
      case OutStep(v) => OutKeeps(s, owner, v);
      case InStep(v) => InKeeps(s, owner, v);
    }
  }

  ghost function Run(s: PageSystem, owner: map<Pfn, Path>, steps: seq<Step>): (r: PageSystem)
    requires Ok(s, owner)
    ensures Ok(r, owner)
    decreases |steps|
  {
    if steps == [] then s
    else
      AfterOk(s, owner, steps[0]);
      Run(After(s, owner, steps[0]), owner, steps[1..])
  }

  /** Paging other pages out and in leaves a page that is out, and its slot, as they are. */
  lemma SavedStays(s: PageSystem, owner: map<Pfn, Path>, step: Step, n: nat, slot: nat, flags: nat, contents: Table)
    requires Ok(s, owner) && Page(n) && PageOf(step.v) != n && SavedIn(s, n, slot, flags, contents)
    ensures SavedIn(After(s, owner, step), n, slot, flags, contents)
  {
    hide Tree, PhysicalAllocator.Valid, Lookup, PageOut, PageIn, FreeSlot, PageOf, Ordinary, EntryFor, InMemory;
    EntryParts(slot, flags);
    NotZero(slot, flags);
    assert IsOut(s, n) && NumberOf(Lookup(s.space, n)) == slot;
    if Enabled(s, owner, step) {
      match step
      case OutStep(v) => OutResult(s, owner, v);
      case InStep(v) =>
        InResult(s, owner, v);
        assert NumberOf(Lookup(s.space, PageOf(v))) != slot;
    }
  }

  lemma NotZero(slot: nat, flags: nat)
    requires 0 < slot && flags < PAGE_SIZE
    ensures EntryFor(slot * PAGE_SIZE, flags) != 0
  {
  }

  lemma {:induction false} SavedThroughRun(s: PageSystem, owner: map<Pfn, Path>, steps: seq<Step>, n: nat, slot: nat,
                                           flags: nat, contents: Table)
    requires Ok(s, owner) && Page(n) && SavedIn(s, n, slot, flags, contents)
    requires forall k :: 0 <= k < |steps| ==> PageOf(steps[k].v) != n
    ensures SavedIn(Run(s, owner, steps), n, slot, flags, contents)
    decreases |steps|
  {
    hide Ok, SavedIn, After, PageOf, Page;
    if steps != [] {
      AfterOk(s, owner, steps[0]);
      SavedStays(s, owner, steps[0], n, slot, flags, contents);
      SavedThroughRun(After(s, owner, steps[0]), owner, steps[1..], n, slot, flags, contents);
    }
  }

  /**
    A page that has gone out comes back, whatever other pages go out and come in meanwhile: with
    the contents it had, in a new frame, with its flags and PRESENT; and its slot alone is freed.
    Without a free frame it stays out and nothing changes.
  */
  lemma RoundTrip(s: PageSystem, owner: map<Pfn, Path>, v: nat, steps: seq<Step>)
    requires Ok(s, owner) && MayGoOut(s, owner, v)
    requires NumberOf(Lookup(s.space, PageOf(v))) in s.space.mem && PhysicalAllocator.Valid(s.space.frames)
    requires Ok(PageOut(s, v).0, owner) && PageOut(s, v).1 == Done
    requires forall k :: 0 <= k < |steps| ==> PageOf(steps[k].v) != PageOf(v)
    ensures var e := Lookup(s.space, PageOf(v));
      var slot := FreeSlot(s.slots, 1).value;
      var before := Run(PageOut(s, v).0, owner, steps);
      && PhysicalAllocator.Valid(before.space.frames) && SlotTaken(before, slot)
      && var (r, status) := PageIn(before, v);
      && (status == Done <==> before.space.frames.free != [])
      && (status != Done ==> r == before)
      && (status == Done ==>
           var f := before.space.frames.free[0];
           && Lookup(r.space, PageOf(v)) == f * 0x1000 + e % 0x1000
           && f in r.space.mem && r.space.mem[f] == s.space.mem[NumberOf(e)]
           && r.slots == before.slots[slot := false])
  {
    hide Tree, PhysicalAllocator.Valid, Lookup, PageOut, PageIn, FreeSlot, SlotsApart, EntryFor, Run, Ordinary;
    OutResult(s, owner, v);
    var e := Lookup(s.space, PageOf(v));
    var slot := FreeSlot(s.slots, 1).value;
    var before := Run(PageOut(s, v).0, owner, steps);
    SavedThroughRun(PageOut(s, v).0, owner, steps, PageOf(v), slot, QuietFlags(e), s.space.mem[NumberOf(e)]);
    EntryParts(slot, QuietFlags(e));
    NotZero(slot, QuietFlags(e));
    InResult(before, owner, v);
    FlagsBack(e, before.space.frames);
  }

  lemma FlagsBack(e: nat, frames: Frames)
    requires Present(e)
    ensures QuietFlags(QuietFlags(e)) + 1 == e % 0x1000
    ensures forall f <- frames.free :: EntryFor(f * PAGE_SIZE, e % 0x1000) == f * 0x1000 + e % 0x1000
  {
  }

  /** A page-out fails only when the frame cannot be given back; the page then stays in memory and the slot is lost. */
  lemma OutFails(s: PageSystem, owner: map<Pfn, Path>, v: nat)
    requires Ok(s, owner) && MayGoOut(s, owner, v)
    requires NumberOf(Lookup(s.space, PageOf(v))) in s.space.mem && PhysicalAllocator.Valid(s.space.frames)
    ensures var g := NumberOf(Lookup(s.space, PageOf(v)));
      var (r, status) := PageOut(s, v);
      && (status != Done <==> g in s.space.frames.free || IsPermanent(s.space.frames.flags[g]))
      && (status != Done ==> r.space == s.space && SlotTaken(r, FreeSlot(s.slots, 1).value)
                             && !s.slots[FreeSlot(s.slots, 1).value])
  {
  }

  // --- a page-out that fails

  const PINNED_ENTRY: nat := 4 * PAGE_SIZE + 1

  /** A table whose first entry alone is used. */
  function FirstOnly(e: nat): (t: Table)
    ensures |t| == ENTRIES && t[0] == e && forall i :: 0 < i < ENTRIES ==> t[i] == 0
  {
    EmptyTable()[0 := e]
  }

  /** Page zero lies in frame 4, behind the tables in frames 0 to 3; all five frames are permanent. */
  function Pinned(): PageSystem {
    PageSystem(
      Paging(map[0 := FirstOnly(TableEntry(1)), 1 := FirstOnly(TableEntry(2)), 2 := FirstOnly(TableEntry(3)),
                 3 := FirstOnly(PINNED_ENTRY), 4 := EmptyTable()],
             0, Frames([], [0, 1, 2, 3, 4], [FLAG_PERMANENT, FLAG_PERMANENT, FLAG_PERMANENT, FLAG_PERMANENT, FLAG_PERMANENT])),
      [EmptyTable(), EmptyTable()], [false, false])
  }

  function PinnedOwner(): map<Pfn, Path> {
    map[0 := [], 1 := [0], 2 := [0, 0], 3 := [0, 0, 0]]
  }

  lemma {:induction false} PinnedLookup(k: nat, path: Path)
    requires k <= 3 && |path| == 4 - k && ValidPath(path)
    ensures LookupFrom(Pinned().space.mem, k, path) ==
      if forall j :: 0 <= j < |path| ==> path[j] == 0 then PINNED_ENTRY else 0
    decreases 3 - k
  {
    hide FirstOnly, EmptyTable, TableEntry;
    TableEntryLeadsOn(k + 1);
    if k < 3 {
      PinnedLookup(k + 1, path[1..]);
      assert forall j :: 0 < j < |path| ==> path[j] == path[1..][j - 1];
      assert forall j :: 0 <= j < |path| - 1 ==> path[1..][j] == path[j + 1];
    }
  }

  lemma PinnedTree()
    ensures Tree(Pinned().space, PinnedOwner())
  {
    hide FirstOnly, EmptyTable, TableEntry;
    var s, owner := Pinned().space, PinnedOwner();
    forall f | 0 <= f < |s.frames.flags|
      ensures OnOneList(s.frames, f)
    {
    }
    forall t | t in owner
      ensures TableOk(s, owner, t)
    {
      TableEntryLeadsOn(t + 1);
    }
  }

  lemma PinnedPages(n: nat)
    ensures !IsOut(Pinned(), n)
    ensures PathOf(0) == [0, 0, 0, 0] && Lookup(Pinned().space, 0) == PINNED_ENTRY
  {
    hide Pinned, LookupFrom;
    assert Pinned().space.root == 0 by {
      PinnedRoot();
    }
    PathOfValid(n);
    PinnedLookup(0, PathOf(n));
    PathOfValid(0);
    PinnedLookup(0, PathOf(0));
  }

  lemma PinnedRoot()
    ensures Pinned().space.root == 0 && |Pinned().space.frames.flags| == 5
  {
  }

  lemma PinnedOk()
    ensures Ok(Pinned(), PinnedOwner()) && MayGoOut(Pinned(), PinnedOwner(), 0)
    ensures Lookup(Pinned().space, 0) == PINNED_ENTRY
  {
    hide Tree, FirstOnly, EmptyTable, TableEntry, Lookup, IsOut, PathOf;
    PinnedTree();
    PinnedPages(0);
    forall n: nat
      ensures !IsOut(Pinned(), n)
    {
      PinnedPages(n);
    }
    assert FreeSlot([false, false], 1) == Some(1);
  }

  /** Paging out that page fails, and slot one stays taken by nobody. */
  lemma PinnedFails()
    ensures Ok(Pinned(), PinnedOwner()) && MayGoOut(Pinned(), PinnedOwner(), 0) && !Pinned().slots[1]
    ensures NumberOf(Lookup(Pinned().space, PageOf(0))) in Pinned().space.mem && PhysicalAllocator.Valid(Pinned().space.frames)
    ensures var (r, status) := PageOut(Pinned(), 0); status == Invalid && r.space == Pinned().space && r.slots == [false, true]
  {
    hide Ok, MayGoOut, Tree, PhysicalAllocator.Valid, FirstOnly, EmptyTable, TableEntry, Lookup, Free, MapPage;
    PinnedOk();
    PinnedTree();
    TreeFrames(Pinned().space, PinnedOwner());
    assert FreeSlot([false, false], 1) == Some(1);
    PermanentStays(Pinned().space.frames, 4);
  }

  lemma PermanentStays(frames: Frames, f: Pfn)
    requires f < |frames.flags| && IsPermanent(frames.flags[f])
    ensures Free(frames, f) == (frames, InvalidParameter)
  {
  }
}
