/**
  The page file as the kernel keeps it: a bitmap of its slots, one bit for each page of the file,
  and the routines that page out and in.
*/
module Pager {
  import opened Common
  import opened PhysicalAllocator
  import opened PageTables
  import opened PageFile
  import BitWords
  import Mmu
  import RecursivePaging

  /** The bitmap has room for every slot exactly when the number of pages is a multiple of eight, or there are no slots. */
  lemma MapCoversSlots(pages: nat)
    ensures (forall slot :: 1 <= slot < pages ==> slot / 8 < pages / 8) <==> pages % 8 == 0 || pages <= 1
  {
    if pages > 1 && pages % 8 != 0 {
      assert (pages - 1) / 8 == pages / 8;
      assert 1 <= pages - 1 < pages;
    }
  }

  /** With nine pages the bit of slot eight is the first one behind the map. */
  lemma NinePages()
    ensures !(forall slot :: 1 <= slot < 9 ==> slot / 8 < 9 / 8)
  {
    MapCoversSlots(9);
  }

  /** The slots that a bitmap says are taken. */
  function SlotsOf(bitmap: seq<nat>): (slots: seq<bool>)
    ensures |slots| == 8 * |bitmap|
  {
    seq(8 * |bitmap|, k requires 0 <= k < 8 * |bitmap| => BitWords.Bit(bitmap[k / 8], k % 8))
  }

  lemma SlotBit(bitmap: seq<nat>, k: nat)
    requires k < 8 * |bitmap|
    ensures SlotsOf(bitmap)[k] <==> BitWords.Bit(bitmap[k / 8], k % 8)
  {
  }

  lemma SlotUpdate(bitmap: seq<nat>, k: nat, taken: bool)
    requires k < 8 * |bitmap|
    ensures var cell := bitmap[k / 8];
      var updated := if taken then BitWords.SetBit(cell, k % 8) else BitWords.ClearBit(cell, k % 8);
      SlotsOf(bitmap[k / 8 := updated]) == SlotsOf(bitmap)[k := taken]
  {
    hide BitWords.Bit, BitWords.SetBit, BitWords.ClearBit;
    var cell := bitmap[k / 8];
    var updated := if taken then BitWords.SetBit(cell, k % 8) else BitWords.ClearBit(cell, k % 8);
    var after, expected := SlotsOf(bitmap[k / 8 := updated]), SlotsOf(bitmap)[k := taken];
    forall j | 0 <= j < 8 * |bitmap|
      ensures after[j] == expected[j]
    {
      BitWords.BitEffect(cell, k % 8, j % 8);
      if j / 8 == k / 8 {
        assert j % 8 == k % 8 <==> j == k;
      }
    }
  }

  lemma NoSlots(bitmap: seq<nat>, k: nat)
    requires k < 8 * |bitmap| && bitmap[k / 8] == 0
    ensures !SlotsOf(bitmap)[k]
  {
    SlotBit(bitmap, k);
    BitWords.NoBits(k % 8);
  }

  /** A map and the byte behind it: the slots of the map come first. */
  lemma MapFirst(bitmap: seq<nat>, behind: nat)
    ensures SlotsOf(bitmap + [behind])[..8 * |bitmap|] == SlotsOf(bitmap)
  {
    var all, own := SlotsOf(bitmap + [behind]), SlotsOf(bitmap);
    forall k | 0 <= k < 8 * |bitmap|
      ensures all[k] == own[k]
    {
      assert (bitmap + [behind])[k / 8] == bitmap[k / 8];
    }
  }

  class PagingFile {
    const bitmap: array<nat>
    var behind: nat
    var file: seq<Table>
    const space: Mmu.Space

    /** A map of one bit for each page, as far as whole bytes go; `behind` is what memory holds next. */
    constructor (pages: nat, file: seq<Table>, space: Mmu.Space, behind: nat)
      requires |file| == pages
      ensures this.file == file && this.space == space && fresh(bitmap) && bitmap.Length == pages / 8 && this.behind == behind
      ensures forall k :: 0 <= k < 8 * (pages / 8) ==> !SlotsOf(bitmap[..])[k]
    {
      bitmap := new nat[pages / 8];
      this.file, this.space, this.behind := file, space, behind;
      new;
      for i := 0 to bitmap.Length
        modifies bitmap
        invariant forall k :: 0 <= k < i ==> bitmap[k] == 0
      {
        bitmap[i] := 0;
      }
      forall k | 0 <= k < 8 * (pages / 8)
        ensures !SlotsOf(bitmap[..])[k]
      {
        NoSlots(bitmap[..], k);
      }
    }

    /** The bits that the routines reach: those of the map and of one byte more. */
    function Reached(): (slots: seq<bool>)
      reads this, bitmap
      ensures |slots| == 8 * bitmap.Length + 8
    {
      SlotsOf(bitmap[..] + [behind])
    }

    function View(): PageSystem
      reads this, bitmap, space, space.pfns, space.pfns.flags
    {
      PageSystem(space.View(), file, SlotsOf(bitmap[..]))
    }

    /** The number of pages of the file is a multiple of eight, so that the bitmap covers all slots. */
    ghost predicate Valid()
      reads this, bitmap, space, space.pfns, space.pfns.inFree, space.pfns.flags
    {
      && |file| == 8 * bitmap.Length
      && bitmap != space.pfns.flags && space.Ok() && RecursivePaging.SelfMapped(space.View())
    }

    /** The entry names slot zero, a free slot, or one that is not even in the byte behind the map. */
    predicate NamesNoSlot(e: nat)
      reads this, bitmap
    {
      NumberOf(e) == 0 || NumberOf(e) >= |Reached()| || !Reached()[NumberOf(e)]
    }

    method PagingGetPageFileMapBit(index: nat) returns (taken: bool)
      ensures taken <==> index < |Reached()| && Reached()[index]
    {
      if index / 8 > bitmap.Length {
        return false;
      }
      taken := BitWords.Bit(if index / 8 < bitmap.Length then bitmap[index / 8] else behind, index % 8);
    }

    method PagingSetPageFileMapBit(index: nat, value: bool) returns (ok: bool)
      modifies bitmap, this`behind
      ensures ok <==> index < |old(Reached())|
      ensures Reached() == if ok then old(Reached())[index := value] else old(Reached())
    {
      if index / 8 > bitmap.Length {
        return false;
      }
      ghost var cells := bitmap[..] + [behind];
      SlotUpdate(cells, index, value);
      var cell := if index / 8 < bitmap.Length then bitmap[index / 8] else behind;
      if value {
        cell := BitWords.SetBit(cell, index % 8);
      } else {
        cell := BitWords.ClearBit(cell, index % 8);
      }
      if index / 8 < bitmap.Length {
        bitmap[index / 8] := cell;
      } else {
        behind := cell;
      }
      assert bitmap[..] + [behind] == cells[index / 8 := cell];
      ok := true;
    }

    /** Takes the first free slot but slot zero, be its bit in the map or behind it. */
    method PagingSelectPageFilePageIndex() returns (slot: Option<nat>)
      requires |file| / 8 == bitmap.Length
      modifies bitmap, this`behind
      ensures slot == FreeSlot(old(Reached()[..|file|]), 1)
      ensures match slot
        case Some(i) => 1 <= i < |file| && !old(Reached())[i] && forall k :: 1 <= k < i ==> old(Reached())[k]
        case None => forall k :: 1 <= k < |file| ==> old(Reached())[k]
      ensures Reached() == if slot.Some? then old(Reached())[slot.value := true] else old(Reached())
    {
      hide SlotsOf;
      var i := 1;
      while i < |file|
        invariant 1 <= i && Reached() == old(Reached())
        invariant forall k :: 1 <= k < i && k < |file| ==> Reached()[k]
        invariant FreeSlot(Reached()[..|file|], i) == FreeSlot(Reached()[..|file|], 1)
      {
        var taken := PagingGetPageFileMapBit(i);
        if !taken {
          var ok := PagingSetPageFileMapBit(i, true);
          return Some(i);
        }
        i := i + 1;
      }
      return None;
    }

    /** Puts the contents of a page into a free slot of the file. */
    method SaveToSlot(v: nat, ghost owner: map<Pfn, Path>) returns (e: nat, slot: nat)
      requires Valid() && PageFile.Ok(View(), owner) && MayGoOut(View(), owner, v)
      modifies this`file, this`behind, bitmap
      ensures Valid() && e == Lookup(old(View()).space, PageOf(v)) && FreeSlot(old(View()).slots, 1) == Some(slot)
      ensures IsTable(old(View()).space.mem, NumberOf(e)) && slot < |old(View()).slots| && slot < |old(file)|
      ensures View() == old(View()).(file := old(file)[slot := old(space.mem)[NumberOf(e)]],
                                     slots := old(View()).slots[slot := true])
    {
      hide PageFile.Ok, PhysicalAllocator.Valid, WellFormed, RecursivePaging.SelfMapped, Lookup, FreeSlot, SlotsOf, MayGoOut;
      OutBasics(View(), owner, v);
      MapFirst(bitmap[..], behind);
      var found := PagingSelectPageFilePageIndex();
      slot := found.value;
      MapFirst(bitmap[..], behind);
      e := space.PagingGetTableMapping(v);
      file := file[slot := space.mem[NumberOf(e)]];
    }

    /** Pages out, given a free slot. */
    method PagingPageOutPage(v: nat, ghost owner: map<Pfn, Path>) returns (status: Status)
      requires Valid() && PageFile.Ok(View(), owner) && MayGoOut(View(), owner, v)
      modifies this`file, this`behind, bitmap, space`mem, space.pfns, space.pfns.inFree, space.pfns.flags
      ensures Valid() && NumberOf(Lookup(old(View()).space, PageOf(v))) in old(View()).space.mem
      ensures PhysicalAllocator.Valid(old(View()).space.frames)
      ensures (View(), status) == PageOut(old(View()), v)
    {
      hide PageFile.Ok, PhysicalAllocator.Valid, WellFormed, RecursivePaging.SelfMapped, Lookup, MapPage, FreeSlot,
           SlotsOf, Free, MayGoOut, NumberOf, PageOf, Ordinary, QuietFlags;
      ghost var s := View();
      OutBasics(s, owner, v);
      var e, slot := SaveToSlot(v, owner);
      var flags := QuietFlags(e);
      var freed := space.pfns.MmFreePfn(NumberOf(e));
      if !freed.Success? {
        return Invalid;
      }
      OutSpaceOk(s, owner, v, space.pfns.View());
      var ok := space.PagingMapPage(v, slot * PAGE_SIZE, flags);
      return Done;
    }

    /** Maps a new frame for a page that is out and fills it from the slot, which is still taken afterwards. */
    method LoadFromSlot(v: nat, slot: nat, flags: nat, ghost owner: map<Pfn, Path>) returns (status: Status)
      requires Valid() && PageFile.Ok(View(), owner) && Page(PageOf(v)) && IsOut(View(), PageOf(v))
      requires slot == NumberOf(Lookup(space.View(), PageOf(v))) && flags == QuietFlags(Lookup(space.View(), PageOf(v)))
      modifies space`mem, space.pfns, space.pfns.inFree, space.pfns.flags
      ensures Valid() && PhysicalAllocator.Valid(old(View()).space.frames)
      ensures slot < |View().slots| && (status == Done || status == OutOfMemory)
      ensures PageIn(old(View()), v) ==
        (if status == Done then View().(slots := View().slots[slot := false]) else View(), status)
    {
      hide PageFile.Ok, PhysicalAllocator.Valid, WellFormed, RecursivePaging.SelfMapped, Lookup, MapPage, SlotsOf,
           Allocate, NumberOf, PageOf, Ordinary, QuietFlags;
      ghost var s := View();
      InBasics(s, owner, v);
      var frame := space.pfns.MmAllocatePfn();
      if !frame.Success? {
        return OutOfMemory;
      }
      var f := frame.value;
      InSpaceOk(s, owner, v, f, space.pfns.View(), flags + 1, file[slot]);
      var ok := space.PagingMapPage(v, f * PAGE_SIZE, flags + 1);
      space.mem := space.mem[f := file[slot]];
      return Done;
    }

    /** Pages in a page that is out, and refuses one whose entry names no taken slot. */
    method PagingPageInPage(v: nat, ghost owner: map<Pfn, Path>) returns (status: Status)
      requires Valid() && PageFile.Ok(View(), owner) && Page(PageOf(v))
      requires IsOut(View(), PageOf(v)) || NamesNoSlot(Lookup(space.View(), PageOf(v)))
      modifies this`file, this`behind, bitmap, space`mem, space.pfns, space.pfns.inFree, space.pfns.flags
      ensures Valid() && PhysicalAllocator.Valid(old(View()).space.frames)
      ensures (View(), status) == PageIn(old(View()), v)
    {
      hide PageFile.Ok, PhysicalAllocator.Valid, WellFormed, RecursivePaging.SelfMapped, Lookup, MapPage, SlotsOf,
           PageIn, NumberOf, PageOf, Ordinary, QuietFlags;
      ghost var s := View();
      AnyBasics(s, owner, v);
      MapFirst(bitmap[..], behind);
      var e := space.PagingGetTableMapping(v);
      var flags := QuietFlags(e);
      var slot := NumberOf(e);
      var taken := PagingGetPageFileMapBit(slot);
      if slot == 0 || !taken {
        InRefused(s, v);
        return Invalid;
      }
      status := LoadFromSlot(v, slot, flags, owner);
      if status != Done {
        return;
      }
      var ok := PagingSetPageFileMapBit(slot, false);
      MapFirst(bitmap[..], behind);
    }
  }

  lemma OutBasics(s: PageSystem, owner: map<Pfn, Path>, v: nat)
    requires PageFile.Ok(s, owner) && MayGoOut(s, owner, v)
    ensures IsTable(s.space.mem, NumberOf(Lookup(s.space, PageOf(v)))) && PhysicalAllocator.Valid(s.space.frames)
    ensures |s.file| == |s.slots| && FreeSlot(s.slots, 1).Some? && FreeSlot(s.slots, 1).value < |s.slots|
    ensures NumberOf(Lookup(s.space, PageOf(v))) < |s.space.frames.flags|
    ensures Ordinary(PageOf(v))
  {
  }

  /** The space stays well formed when the frame of the page has gone back. */
  lemma OutSpaceOk(s: PageSystem, owner: map<Pfn, Path>, v: nat, frames: Frames)
    requires PageFile.Ok(s, owner) && MayGoOut(s, owner, v) && NumberOf(Lookup(s.space, PageOf(v))) < |s.space.frames.flags|
    requires frames == Free(s.space.frames, NumberOf(Lookup(s.space, PageOf(v)))).0
    ensures PhysicalAllocator.Valid(frames) && WellFormed(s.space.(frames := frames))
    ensures RecursivePaging.SelfMapped(s.space) ==> RecursivePaging.SelfMapped(s.space.(frames := frames))
  {
    hide PhysicalAllocator.Valid, SlotsApart, Lookup, Free;
    FreeFacts(s.space.frames, NumberOf(Lookup(s.space, PageOf(v))));
    SameTables(s.space, s.space.(frames := frames), owner);
  }

  lemma AnyBasics(s: PageSystem, owner: map<Pfn, Path>, v: nat)
    requires PageFile.Ok(s, owner) && Page(PageOf(v))
    ensures PhysicalAllocator.Valid(s.space.frames) && |s.file| == |s.slots| && Ordinary(PageOf(v))
  {
  }

  lemma InBasics(s: PageSystem, owner: map<Pfn, Path>, v: nat)
    requires PageFile.Ok(s, owner) && Page(PageOf(v)) && IsOut(s, PageOf(v))
    ensures PhysicalAllocator.Valid(s.space.frames) && |s.file| == |s.slots|
    ensures SlotTaken(s, NumberOf(Lookup(s.space, PageOf(v)))) && Ordinary(PageOf(v))
    ensures forall k :: 0 <= k < |s.file| ==> |s.file[k]| == ENTRIES
  {
  }

  /** The space is well formed while the page is mapped and when it has been filled. */
  lemma InSpaceOk(s: PageSystem, owner: map<Pfn, Path>, v: nat, f: Pfn, frames: Frames, flags: nat, contents: Table)
    requires PageFile.Ok(s, owner) && Page(PageOf(v)) && IsOut(s, PageOf(v)) && flags < PAGE_SIZE && |contents| == ENTRIES
    requires PhysicalAllocator.Valid(s.space.frames) && Allocate(s.space.frames) == (frames, Success(f))
    requires RecursivePaging.SelfMapped(s.space)
    ensures PhysicalAllocator.Valid(frames) && WellFormed(s.space.(frames := frames))
    ensures RecursivePaging.SelfMapped(s.space.(frames := frames))
    ensures var mapped := MapPage(s.space.(frames := frames), v, f * PAGE_SIZE, flags).0;
      var r := mapped.(mem := mapped.mem[f := contents]);
      WellFormed(r) && RecursivePaging.SelfMapped(r)
  {
    hide PhysicalAllocator.Valid, SlotsApart, Lookup, Allocate, MapPage;
    AllocateSuccess(s.space.frames, f);
    AllocateFacts(s.space.frames);
    assert f in s.space.frames.free;
    var m := s.space.(frames := frames);
    SameTables(s.space, m, owner);
    InSpace(s, owner, v, f, frames, flags, contents);
    Mmu.MapPageKeepsSelf(m, v, f * PAGE_SIZE, flags);
  }
}
