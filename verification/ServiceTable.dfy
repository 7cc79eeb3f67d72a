/**
 The service table of skynet-src/skynet_service.c: a slot array that doubles and a name array kept
 sorted beside it, both changed in place. Each method is the region under the table's write (or
 read) lock.
 */
module ServiceTable {
  import opened Options
  import opened ServiceNames

  const DEFAULT_SLOT_SIZE := 4
  const INDEX_MASK := 0xffffff

  datatype Service = Service(name: string, handle: nat)

  /** Every service sits in the slot its handle names, under a harbor id between 1 and 255. */
  ghost predicate SlotsOk(slots: seq<Option<Service>>) {
    && PowerOfTwo(|slots|) && |slots| >= DEFAULT_SLOT_SIZE
    && forall i :: 0 <= i < |slots| && slots[i].Some? ==>
         Index(slots[i].value.handle) == i && 256 <= slots[i].value.handle < 65536
  }

  lemma SizeBounds(slots: seq<Option<Service>>)
    requires SlotsOk(slots)
    ensures 4 <= |slots| <= 256 && (|slots| < 256 ==> |slots| <= 128)
  {
  }

  /** The slot array of a table that has grown to `size`. */
  ghost function Widened(slots: seq<Option<Service>>, size: nat): seq<Option<Service>> {
    if size <= |slots| then slots else slots + seq(size - |slots|, _ => None)
  }

  ghost predicate Live(slots: seq<Option<Service>>, s: Service) {
    Index(s.handle) < |slots| && slots[Index(s.handle)] == Some(s)
  }

  /** Every name points to a live service of that name. */
  ghost predicate NamesLive(slots: seq<Option<Service>>, es: seq<Entry>) {
    forall i :: 0 <= i < |es| ==> Live(slots, Service(es[i].name, es[i].handle))
  }

  // ---------------------------------------------------------------- the scan for a free slot

  /**
   The `index` of round `i` of a scan that starts at `start`: past INDEX_MASK it goes on at 1, since 0
   is reserved.
   */
  function ScanIndex(start: nat, i: nat): nat
    requires start <= INDEX_MASK + 1
  {
    if start + i <= INDEX_MASK then start + i else start + i - INDEX_MASK
  }

  predicate CanScan(start: nat, size: nat) {
    start + size <= INDEX_MASK + 1 || start == INDEX_MASK + 1
  }

  predicate Visits(start: nat, size: nat, h: nat)
    requires start <= INDEX_MASK + 1 && 0 < size
  {
    exists i :: 0 <= i < size && ScanIndex(start, i) % size == h
  }

  /**
   One round of the scan looks at every slot exactly when it does not run across INDEX_MASK; when it
   does, the reserved index 0 makes it miss slot 0.
   */
  lemma ScanCovers(start: nat, size: nat)
    requires PowerOfTwo(size) && start <= INDEX_MASK + 1
    ensures CanScan(start, size) <==> forall h :: 0 <= h < size ==> Visits(start, size, h)
  {
    if CanScan(start, size) {
      forall h | 0 <= h < size
        ensures Visits(start, size, h)
      {
        ScanReaches(start, size, h);
      }
    } else {
      ScanMisses(start, size);
    }
  }

  lemma ScanReaches(start: nat, size: nat, h: nat)
    requires PowerOfTwo(size) && start <= INDEX_MASK + 1 && CanScan(start, size) && h < size
    ensures Visits(start, size, h)
  {
    var first := ScanIndex(start, 0);
    var i := if first % size <= h then h - first % size else h + size - first % size;
    SameSlot(first, size, i, h);
    assert ScanIndex(start, i) == first + i;
  }

  /** A scan that runs across INDEX_MASK still looks at every slot but slot 0. */
  lemma ScanReachesOthers(start: nat, size: nat, h: nat)
    requires PowerOfTwo(size) && start <= INDEX_MASK + 1 && 0 < h < size
    ensures Visits(start, size, h)
  {
    if CanScan(start, size) {
      ScanReaches(start, size, h);
    } else {
      var r := start % size;
      BeforeMask(start, size);
      if r <= h {
        SameSlot(start, size, h - r, h);
        assert ScanIndex(start, h - r) == start + (h - r);
      } else {
        assert ScanIndex(start, h + INDEX_MASK - start) == h;
      }
    }
  }

  lemma BeforeMask(start: nat, size: nat)
    requires PowerOfTwo(size) && INDEX_MASK + 1 - size < start <= INDEX_MASK
    ensures start % size == size - (INDEX_MASK + 1 - start)
  {
  }

  lemma SameSlot(first: nat, size: nat, i: nat, h: nat)
    requires PowerOfTwo(size) && h < size
    requires i == if first % size <= h then h - first % size else h + size - first % size
    ensures (first + i) % size == h && i < size
  {
  }

  lemma ScanCoversZero(start: nat, size: nat)
    requires PowerOfTwo(size) && start <= INDEX_MASK + 1 && Visits(start, size, 0)
    ensures CanScan(start, size)
  {
    if !CanScan(start, size) {
      ScanMisses(start, size);
    }
  }

  lemma ScanMisses(start: nat, size: nat)
    requires PowerOfTwo(size) && start <= INDEX_MASK + 1 && !CanScan(start, size)
    ensures !Visits(start, size, 0)
  {
    forall i | 0 <= i < size
      ensures ScanIndex(start, i) % size != 0
    {
      if start + i <= INDEX_MASK {
        NotAMultiple(start + i, size);
      }
    }
  }

  lemma NotAMultiple(n: nat, size: nat)
    requires PowerOfTwo(size) && INDEX_MASK + 1 - size < n <= INDEX_MASK
    ensures n % size != 0
  {
  }

  // ---------------------------------------------------------------- slots and names

  /** Two live services never share a handle. */
  lemma HandlesDistinct(slots: seq<Option<Service>>, a: Service, b: Service)
    requires SlotsOk(slots) && Live(slots, a) && Live(slots, b)
    ensures a.handle == b.handle ==> a == b
  {
  }

  /** Why the name array never outgrows the slot array: each name and the new service has a slot of its own. */
  lemma {:induction false} NamesFit(slots: seq<Option<Service>>, es: seq<Entry>, name: string, handle: nat, cap: nat)
    requires SlotsOk(slots) && Sorted(es) && NamesLive(slots, es) && Live(slots, Service(name, handle))
    requires name !in Bindings(es) && PowerOfTwo(cap) && cap <= |es|
    ensures cap * 2 <= |slots| && PowerOfTwo(cap * 2)
  {
    var owners := seq(|es| + 1, i requires 0 <= i <= |es| => if i < |es| then Index(es[i].handle) else Index(handle));
    forall i, j | 0 <= i < j < |owners|
      ensures owners[i] != owners[j]
    {
      assert Live(slots, Service(es[i].name, es[i].handle));
      BindAt(es, i);
      if j < |es| {
        assert Live(slots, Service(es[j].name, es[j].handle));
        LessAsym(es[i].name, es[j].name);
      }
    }
    forall i | 0 <= i < |owners|
      ensures owners[i] < |slots|
    {
      if i < |es| {
        assert Live(slots, Service(es[i].name, es[i].handle));
      }
    }
    Pigeonhole(owners, |slots|);
    NextPower(cap, |slots|);
  }

  class ServiceStorage {
    var slotSize: nat
    var slotIndex: nat
    var slot: array<Option<Service>>
    var nameCap: nat
    var nameCount: nat
    var name: array<Entry>

    ghost predicate Shaped()
      reads this
    {
      && slot.Length == slotSize && slotIndex <= INDEX_MASK + 1
      && name.Length == nameCap && nameCount <= nameCap && PowerOfTwo(nameCap)
    }

    ghost function Entries(): seq<Entry>
      requires Shaped()
      reads this, name
    {
      name[..nameCount]
    }

    ghost predicate Valid()
      reads this, slot, name
    {
      Shaped() && SlotsOk(slot[..]) && Sorted(Entries()) && NamesLive(slot[..], Entries())
    }

    /** The map the name array stands for. */
    ghost function Names(): map<string, nat>
      requires Valid()
      reads this, slot, name
    {
      Bindings(Entries())
    }

    constructor ()
      ensures Valid() && Names() == map[] && slotIndex == 0 && slotSize == DEFAULT_SLOT_SIZE
      ensures forall i :: 0 <= i < slotSize ==> slot[i].None?
      ensures fresh(slot) && fresh(name)
    {
      slotSize, slotIndex := DEFAULT_SLOT_SIZE, 0;
      slot := new Option<Service>[DEFAULT_SLOT_SIZE](_ => None);
      nameCap, nameCount := DEFAULT_SLOT_SIZE / 2, 0;
      name := new Entry[DEFAULT_SLOT_SIZE / 2](_ => Entry("", 0));
    }

    /** Doubles the full slot array; every service keeps its slot. */
    method Grow()
      requires Valid() && slotSize < 256
      requires forall i :: 0 <= i < slotSize ==> slot[i].Some?
      modifies this`slot, this`slotSize
      ensures Valid() && slotSize == 2 * old(slotSize) && fresh(slot)
      ensures slot[..] == old(slot[..]) + seq(old(slotSize), _ => None)
    {
      var newSlot := new Option<Service>[slotSize * 2](_ => None);
      var i := 0;
      while i < slotSize
        invariant 0 <= i <= slotSize
        invariant forall j :: 0 <= j < i ==> newSlot[j] == slot[j]
        invariant forall j :: i <= j < slotSize * 2 ==> newSlot[j] == None
        modifies newSlot
      {
        var handle := slot[i].value.handle;
        RehashKeepsSlot(handle, slotSize);
        var hash := handle % (slotSize * 2);
        assert newSlot[hash] == None;
        newSlot[hash] := slot[i];
        i := i + 1;
      }
      ghost var was := slot[..];
      assert newSlot[..] == was + seq(slotSize, _ => None);
      GrownOk(was, Entries(), slotSize);
      slot := newSlot;
      slotSize := slotSize * 2;
    }

    /**
     The inner loop of `_create`: a free slot, or `full`. Across INDEX_MASK it overlooks slot 0, so
     it then also answers `full` when that is the only free one.
     */
    method ScanFree() returns (full: bool, index: nat)
      requires Valid()
      ensures full == ((forall i :: 0 < i < slotSize ==> slot[i].Some?) &&
                       (slot[0].Some? || !CanScan(slotIndex, slotSize)))
      ensures !full ==> index <= INDEX_MASK && slot[index % slotSize].None?
    {
      index := slotIndex;
      var i := 0;
      while i < slotSize
        invariant 0 <= i <= slotSize && index <= INDEX_MASK + 1
        invariant i < slotSize ==> (if index > INDEX_MASK then 1 else index) == ScanIndex(slotIndex, i)
        invariant forall j :: 0 <= j < i ==> slot[ScanIndex(slotIndex, j) % slotSize].Some?
      {
        if index > INDEX_MASK {
          index := 1;
        }
        if slot[index % slotSize].None? {
          if index % slotSize == 0 {
            assert Visits(slotIndex, slotSize, 0);
            ScanCoversZero(slotIndex, slotSize);
          }
          return false, index;
        }
        i, index := i + 1, index + 1;
      }
      forall h | 0 < h < slotSize
        ensures slot[h].Some?
      {
        ScanReachesOthers(slotIndex, slotSize, h);
      }
      if CanScan(slotIndex, slotSize) {
        ScanReaches(slotIndex, slotSize, 0);
      }
      full := true;
    }

    /**
     `_create`: the new service gets a free slot; the table doubles, once, only when there is none.
     The one case left out is the one in which the source reads a null slot: nothing but slot 0 is
     free and the scan runs across INDEX_MASK.
     */
    method Create(harbor: nat, newName: string) returns (handle: nat)
      requires Valid() && 0 < harbor < 256
      requires slot[0].None? && (forall i :: 0 < i < slotSize ==> slot[i].Some?) ==> CanScan(slotIndex, slotSize)
      requires slotSize == 256 ==> exists i :: 0 <= i < slotSize && slot[i].None?
      modifies this`slot, this`slotSize, this`slotIndex, slot
      ensures Valid() && Entries() == old(Entries())
      ensures slotSize == if None in old(slot[..]) then old(slotSize) else 2 * old(slotSize)
      ensures handle == Handle(harbor, Index(handle)) && HarborId(handle) == harbor && Index(handle) < slotSize
      ensures Widened(old(slot[..]), slotSize)[Index(handle)] == None
      ensures slot[..] == Widened(old(slot[..]), slotSize)[Index(handle) := Some(Service(newName, handle))]
      ensures slot == old(slot) || fresh(slot)
    {
      ghost var was := slot[..];
      SizeBounds(slot[..]);
      hide Sorted, NamesLive, SlotsOk, PowerOfTwo, CanScan;
      var full, index := ScanFree();
      while full
        invariant Valid() && 0 <= index && slotIndex == old(slotIndex) && (fresh(slot) || slot == old(slot))
        invariant full ==> slotSize == |was| && forall i :: 0 <= i < slotSize ==> slot[i].Some?
        invariant !full ==> index <= INDEX_MASK && slot[index % slotSize].None?
        invariant slot[..] == Widened(was, slotSize)
        invariant slotSize == |was| || (None !in was && slotSize == 2 * |was|)
        decreases full
      {
        assert slotSize * 2 - 1 <= INDEX_MASK;
        Grow();
        SizeBounds(slot[..]);
        assert slot[old(slotSize)] == None;
        full, index := ScanFree();
      }
      var hash := index % slotSize;
      handle := Handle(harbor, hash);
      HandleKeepsIndex(harbor, hash);
      PlacedOk(slot[..], Entries(), hash, Service(newName, handle));
      slot[hash] := Some(Service(newName, handle));
      slotIndex := index + 1;
    }

    /** `skynet_service_find`. */
    method Find(handle: nat) returns (result: Option<Service>)
      requires Valid()
      ensures result.Some? ==> Live(slot[..], result.value) && result.value.handle == handle
      ensures result.None? ==> forall s :: Live(slot[..], s) ==> s.handle != handle
    {
      result := None;
      var hash := Index(handle);
      if hash < slotSize && slot[hash].Some? && slot[hash].value.handle == handle {
        result := slot[hash];
      }
    }

    /** The binary search that `_insert_name`, `_delete_name` and `_find_name` share. */
    method Locate(key: string) returns (found: bool, at: nat)
      requires Valid()
      ensures found ==> at < nameCount && name[at].name == key
      ensures !found ==> Gap(Entries(), key, at)
    {
      var begin, end := 0, nameCount - 1;
      while begin <= end
        invariant 0 <= begin <= end + 1 <= nameCount
        invariant forall i :: 0 <= i < begin ==> Less(Entries()[i].name, key)
        invariant forall i :: end < i < nameCount ==> Less(key, Entries()[i].name)
        decreases end - begin
      {
        var mid := (begin + end) / 2;
        if name[mid].name == key {
          return true, mid;
        }
        LessTotal(name[mid].name, key);
        if Less(name[mid].name, key) {
          BelowMid(Entries(), mid, key);
          begin := mid + 1;
        } else {
          AboveMid(Entries(), mid, key);
          end := mid - 1;
        }
      }
      found, at := false, begin;
    }

    /** `_find_name`: the handle bound to a name, 0 when there is none. */
    method FindName(key: string) returns (handle: nat)
      requires Valid()
      ensures handle == if key in Names() then Names()[key] else 0
    {
      var found, at := Locate(key);
      if found {
        BindAt(Entries(), at);
        handle := name[at].handle;
      } else {
        GapUnbound(Entries(), key, at);
        handle := 0;
      }
    }

    /** `skynet_service_findname`: a name in the map always leads to its live service. */
    method FindByName(key: string) returns (result: Option<Service>)
      requires Valid()
      ensures result == if key in Names() then Some(Service(key, Names()[key])) else None
      ensures result.Some? ==> Live(slot[..], result.value)
    {
      var handle := FindName(key);
      BoundIsLive(slot[..], Entries(), key);
      result := Find(handle);
    }

    /** The growing half of `_insert_name_before`: a doubled array with a hole at `before`. */
    method EnlargeNames(before: nat)
      requires Shaped() && before <= nameCount == nameCap && PowerOfTwo(nameCap * 2)
      modifies this`name, this`nameCap
      ensures Shaped() && nameCap == 2 * old(nameCap) && fresh(name) && Holed(old(Entries()), before, name[..])
    {
      var n := new Entry[nameCap * 2](_ => Entry("", 0));
      var i := 0;
      while i < before
        invariant 0 <= i <= before
        invariant forall j :: 0 <= j < i ==> n[j] == name[j]
        modifies n
      {
        n[i] := name[i];
        i := i + 1;
      }
      i := before;
      while i < nameCount
        invariant before <= i <= nameCount
        invariant forall j :: 0 <= j < before ==> n[j] == name[j]
        invariant forall j :: before < j <= i ==> n[j] == name[j - 1]
        modifies n
      {
        n[i + 1] := name[i];
        i := i + 1;
      }
      nameCap := nameCap * 2;
      name := n;
    }

    /** The in-place half of `_insert_name_before`. */
    method ShiftUp(before: nat)
      requires Shaped() && before <= nameCount < nameCap
      modifies name
      ensures Holed(old(Entries()), before, name[..])
    {
      ghost var es := Entries();
      var i := nameCount;
      while i > before
        invariant before <= i <= nameCount
        invariant forall j :: 0 <= j < i ==> name[j] == es[j]
        invariant forall j :: i < j <= nameCount ==> name[j] == es[j - 1]
      {
        name[i] := name[i - 1];
        i := i - 1;
      }
    }

    /** `_insert_name_before`: shifts in place, or fills a doubled array; its assert never fails. */
    method InsertNameBefore(key: string, handle: nat, before: nat)
      requires Valid() && Gap(Entries(), key, before) && Live(slot[..], Service(key, handle))
      modifies this`name, this`nameCap, this`nameCount, name
      ensures Shaped() && Entries() == Insert(old(Entries()), before, Entry(key, handle))
      ensures name == old(name) || fresh(name)
    {
      ghost var es := Entries();
      hide Sorted, NamesLive, SlotsOk, Bindings, Live, PowerOfTwo;
      if nameCount >= nameCap {
        GapUnbound(es, key, before);
        NamesFit(slot[..], es, key, handle, nameCap);
        EnlargeNames(before);
        assert nameCap <= slotSize;
      } else {
        ShiftUp(before);
      }
      HoleFilled(es, before, name[..], Entry(key, handle));
      name[before] := Entry(key, handle);
      nameCount := nameCount + 1;
    }

    /** `_insert_name`: the first binding of a name wins. */
    method InsertName(key: string, handle: nat)
      requires Valid() && Live(slot[..], Service(key, handle))
      modifies this`name, this`nameCap, this`nameCount, name
      ensures Valid()
      ensures Names() == if key in old(Names()) then old(Names()) else old(Names())[key := handle]
      ensures name == old(name) || fresh(name)
    {
      var found, at := Locate(key);
      if found {
        BindAt(Entries(), at);
      } else {
        ghost var es := Entries();
        InsertNameBefore(key, handle, at);
        InsertSorted(es, at, Entry(key, handle));
        InsertLive(slot[..], es, at, Entry(key, handle));
      }
    }

    /** The table part of `skynet_service_create`: a slot, then the name. */
    method CreateNamed(harbor: nat, newName: string) returns (s: Service)
      requires Valid() && 0 < harbor < 256
      requires exists i :: 0 < i < slotSize && slot[i].None?
      modifies this`slot, this`slotSize, this`slotIndex, slot
      modifies this`name, this`nameCap, this`nameCount, name
      ensures Valid() && s.name == newName && Index(s.handle) < slotSize == old(slotSize)
      ensures old(slot[..])[Index(s.handle)] == None && slot[..] == old(slot[..])[Index(s.handle) := Some(s)]
      ensures Names() == if newName in old(Names()) then old(Names()) else old(Names())[newName := s.handle]
      ensures (slot == old(slot) || fresh(slot)) && (name == old(name) || fresh(name))
    {
      ghost var was, names := slot[..], Names();
      hide Sorted, NamesLive, SlotsOk, Bindings, PowerOfTwo, CanScan;
      ghost var i :| 0 < i < slotSize && slot[i].None?;
      assert was[i] == None;
      var handle := Create(harbor, newName);
      s := Service(newName, handle);
      assert slot[..] == was[Index(handle) := Some(s)] && Live(slot[..], s);
      assert Names() == names;
      InsertName(newName, handle);
    }

    /** The loop of `_delete_name` that closes the hole. */
    method ShiftDown(at: nat)
      requires Shaped() && at < nameCount
      modifies name
      ensures name[..nameCount - 1] == Delete(old(Entries()), at)
    {
      ghost var es := Entries();
      var i := at;
      while i < nameCount - 1
        invariant at <= i <= nameCount - 1
        invariant forall j :: 0 <= j < at ==> name[j] == es[j]
        invariant forall j :: at <= j < i ==> name[j] == es[j + 1]
        invariant forall j :: i < j < nameCount ==> name[j] == es[j]
      {
        assert name[i + 1] == es[i + 1];
        name[i] := name[i + 1];
        i := i + 1;
      }
      DeletePoints(es, at);
      hide Delete;
      assert name[..nameCount - 1] == Delete(es, at);
    }

    /** `_delete_name`. */
    method DeleteName(key: string)
      requires Valid()
      modifies this`nameCount, name
      ensures Valid() && Names() == old(Names()) - {key}
    {
      var found, at := Locate(key);
      ghost var es := Entries();
      if found {
        ShiftDown(at);
        DeleteSorted(es, at);
        DeleteLive(slot[..], es, at);
        nameCount := nameCount - 1;
        hide Sorted, NamesLive, SlotsOk, Bindings, Live, PowerOfTwo, Delete;
        assert Entries() == Delete(es, at);
      } else {
        GapUnbound(es, key, at);
      }
    }

    /**
     The table part of `skynet_service_release`. The name goes even when it is bound to another
     service of the same name: exactly then a service that stays loses its binding.
     */
    method Release(ctx: Service)
      requires Valid() && Live(slot[..], ctx)
      modifies this`nameCount, name, slot
      ensures Valid() && Names() == old(Names()) - {ctx.name}
      ensures slot[..] == old(slot[..])[Index(ctx.handle) := None]
      ensures KeepsOthers(old(Names()), Names(), ctx.handle) <==>
              ctx.name !in old(Names()) || old(Names())[ctx.name] == ctx.handle
    {
      var hash := Index(ctx.handle);
      assert hash < slotSize;
      ReleaseExactly(Names(), ctx);
      DeleteName(ctx.name);
      FreedOk(slot[..], Entries(), ctx);
      slot[hash] := None;
    }
  }

  /** Every service but `handle` is still found under the names it was found under. */
  ghost predicate KeepsOthers(before: map<string, nat>, after: map<string, nat>, handle: nat) {
    forall n :: n in before && before[n] != handle ==> n in after && after[n] == before[n]
  }

  /** Releasing a service takes no other service's binding exactly when its name is not bound to another. */
  lemma ReleaseExactly(names: map<string, nat>, ctx: Service)
    ensures KeepsOthers(names, names - {ctx.name}, ctx.handle) <==>
            ctx.name !in names || names[ctx.name] == ctx.handle
  {
    if ctx.name in names && names[ctx.name] != ctx.handle {
      assert ctx.name !in names - {ctx.name};
    }
  }

  /**
   The run at which it happens: two services are created under one name, which stays bound to the
   first; releasing the second leaves the first alive and no longer to be found by its name.
   */
  method ReleaseSecondOfAName(key: string) returns (m: ServiceStorage, first: Service)
    ensures fresh(m) && m.Valid()
    ensures Live(m.slot[..], first) && first.name == key && key !in m.Names()
  {
    hide Sorted, NamesLive, SlotsOk, Bindings, PowerOfTwo;
    m := new ServiceStorage();
    assert m.slot[1].None?;
    first := m.CreateNamed(1, key);
    ghost var one := m.slot[..];
    assert one[if Index(first.handle) == 1 then 2 else 1] == None;
    var second := m.CreateNamed(1, key);
    assert m.slot[..] == one[Index(second.handle) := Some(second)];
    assert Index(first.handle) != Index(second.handle);
    m.Release(second);
  }

  lemma GrownOk(slots: seq<Option<Service>>, es: seq<Entry>, size: nat)
    requires SlotsOk(slots) && NamesLive(slots, es) && size == |slots| < 256
    ensures SlotsOk(slots + seq(size, _ => None)) && NamesLive(slots + seq(size, _ => None), es)
  {
    var more := slots + seq(size, _ => None);
    forall i | 0 <= i < |es|
      ensures Live(more, Service(es[i].name, es[i].handle))
    {
      assert Live(slots, Service(es[i].name, es[i].handle));
    }
  }

  lemma PlacedOk(slots: seq<Option<Service>>, es: seq<Entry>, h: nat, s: Service)
    requires SlotsOk(slots) && NamesLive(slots, es) && h < |slots| && slots[h].None?
    requires Index(s.handle) == h && 256 <= s.handle < 65536
    ensures SlotsOk(slots[h := Some(s)]) && NamesLive(slots[h := Some(s)], es)
  {
    forall i | 0 <= i < |es|
      ensures Live(slots[h := Some(s)], Service(es[i].name, es[i].handle))
    {
      assert Live(slots, Service(es[i].name, es[i].handle));
    }
  }

  lemma InsertLive(slots: seq<Option<Service>>, es: seq<Entry>, at: nat, e: Entry)
    requires NamesLive(slots, es) && at <= |es| && Live(slots, Service(e.name, e.handle))
    ensures NamesLive(slots, Insert(es, at, e))
  {
    InsertPoints(es, at, e);
    hide Insert, Live;
  }

  lemma DeleteLive(slots: seq<Option<Service>>, es: seq<Entry>, at: nat)
    requires NamesLive(slots, es) && at < |es|
    ensures NamesLive(slots, Delete(es, at))
  {
    DeletePoints(es, at);
    hide Delete, Live;
  }

  /** `raw` holds the names of `es` with a hole at `before`. */
  ghost predicate Holed(es: seq<Entry>, before: nat, raw: seq<Entry>) {
    && before <= |es| < |raw|
    && (forall j :: 0 <= j < before ==> raw[j] == es[j])
    && (forall j :: before < j <= |es| ==> raw[j] == es[j - 1])
  }

  lemma HoleFilled(es: seq<Entry>, before: nat, raw: seq<Entry>, e: Entry)
    requires Holed(es, before, raw)
    ensures raw[before := e][..|es| + 1] == Insert(es, before, e)
  {
    InsertPoints(es, before, e);
  }

  lemma FreedOk(slots: seq<Option<Service>>, es: seq<Entry>, s: Service)
    requires SlotsOk(slots) && Sorted(es) && NamesLive(slots, es) && Live(slots, s) && s.name !in Bindings(es)
    ensures SlotsOk(slots[Index(s.handle) := None]) && NamesLive(slots[Index(s.handle) := None], es)
  {
    forall i | 0 <= i < |es|
      ensures Live(slots[Index(s.handle) := None], Service(es[i].name, es[i].handle))
    {
      assert Live(slots, Service(es[i].name, es[i].handle));
      BindAt(es, i);
    }
  }

  lemma BoundIsLive(slots: seq<Option<Service>>, es: seq<Entry>, key: string)
    requires SlotsOk(slots) && Sorted(es) && NamesLive(slots, es)
    ensures key in Bindings(es) ==> Live(slots, Service(key, Bindings(es)[key]))
  {
    if key in Bindings(es) {
      var i := BindKey(es, key);
      BindAt(es, i);
      assert Live(slots, Service(es[i].name, es[i].handle));
    }
  }

  lemma GapUnbound(es: seq<Entry>, key: string, at: nat)
    requires Gap(es, key, at)
    ensures key !in Bindings(es)
  {
    GapMissing(es, key, at);
    if key in Bindings(es) {
      var i := BindKey(es, key);
    }
  }

  lemma BelowMid(es: seq<Entry>, mid: nat, key: string)
    requires Sorted(es) && mid < |es| && Less(es[mid].name, key)
    ensures forall i :: 0 <= i <= mid ==> Less(es[i].name, key)
  {
    forall i | 0 <= i < mid
      ensures Less(es[i].name, key)
    {
      LessTrans(es[i].name, es[mid].name, key);
    }
  }

  lemma AboveMid(es: seq<Entry>, mid: nat, key: string)
    requires Sorted(es) && mid < |es| && Less(key, es[mid].name)
    ensures forall i :: mid <= i < |es| ==> Less(key, es[i].name)
  {
    forall i | mid < i < |es|
      ensures Less(key, es[i].name)
    {
      LessTrans(key, es[mid].name, es[i].name);
    }
  }
}
