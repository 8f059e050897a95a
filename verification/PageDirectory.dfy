/**
 Two-level page tables with the directory mapped into itself (32-bit paging, Intel SDM volume 3A
 section 4.3). With paging on, the code reaches directory and tables through virtual addresses;
 `Walk` is what the processor makes of an address.
 */
module PageDirectories {

  const PAGE_SIZE: nat := 4096
  const ENTRIES: nat := 1024
  const PAGETABLES_VIRTUAL_LOC: nat := 0xFFC0_0000
  const PAGEDIR_VIRTUAL_LOC: nat := 0xFFFF_F000
  const PAGE_DIR_TEMP_LOC: nat := 0xFF10_0000
  const SELF: nat := 1023

  /** The physical address of a byte, and whether it may be written and whether user code may use it. */
  datatype Translation = NotPresent | At(phys: nat, writable: bool, user: bool)

  /** A word of physical memory. */
  function Word(mem: map<nat, nat>, a: nat): nat
  {
    if a in mem then mem[a] else 0
  }

  predicate Present(e: nat)
  {
    e % 2 == 1
  }

  predicate Writable(e: nat)
  {
    e / 2 % 2 == 1
  }

  predicate User(e: nat)
  {
    e / 4 % 2 == 1
  }

  /** e & 0xFFFFF000 */
  function Frame(e: nat): (f: nat)
    ensures f % PAGE_SIZE == 0
  {
    e / PAGE_SIZE * PAGE_SIZE
  }

  function DirIndex(v: nat): nat
  {
    v / PAGE_SIZE / ENTRIES
  }

  function PageIndex(v: nat): (i: nat)
    ensures i < ENTRIES
  {
    v / PAGE_SIZE % ENTRIES
  }

  /** Both entries must allow what the access does (section 4.6). */
  function Walk(mem: map<nat, nat>, dir: nat, v: nat): Translation
  {
    var de := Word(mem, dir + 4 * DirIndex(v));
    if !Present(de) then NotPresent
    else
      var pe := Word(mem, Frame(de) + 4 * PageIndex(v));
      if !Present(pe) then NotPresent
      else At(Frame(pe) + v % PAGE_SIZE, Writable(de) && Writable(pe), User(de) && User(pe))
  }

  // ---------- the parts of an address ----------

  lemma Parts(d: nat, p: nat, o: nat)
    requires p < ENTRIES && o < PAGE_SIZE
    ensures var v := (d * ENTRIES + p) * PAGE_SIZE + o;
            DirIndex(v) == d && PageIndex(v) == p && v % PAGE_SIZE == o && v / PAGE_SIZE == d * ENTRIES + p
  {
  }

  /** Same directory and page index: same page. */
  lemma SamePage(v: nat, w: nat)
    ensures DirIndex(v) == DirIndex(w) && PageIndex(v) == PageIndex(w) <==> v / PAGE_SIZE == w / PAGE_SIZE
  {
  }

  lemma FrameOf(f: nat, flags: nat)
    requires f % PAGE_SIZE == 0 && flags < PAGE_SIZE
    ensures Frame(f + flags) == f && (f + flags) % 8 == flags % 8
    ensures Writable(f + flags) == Writable(flags) && User(f + flags) == User(flags) && Present(f + flags) == Present(flags)
  {
    hide Writable, User, Present;
    var q := f / PAGE_SIZE;
    FrameParts(q, flags);
    EightMore(512 * q, flags);
  }

  lemma FrameParts(q: nat, flags: nat)
    requires flags < PAGE_SIZE
    ensures Frame(PAGE_SIZE * q + flags) == PAGE_SIZE * q
  {
  }

  /** The low bits of an entry do not see its upper ones. */
  lemma EightMore(n: nat, x: nat)
    ensures (8 * n + x) % 8 == x % 8
    ensures Writable(8 * n + x) == Writable(x) && User(8 * n + x) == User(x) && Present(8 * n + x) == Present(x)
  {
    assert (8 * n + x) / 2 == 4 * n + x / 2;
    assert (8 * n + x) / 4 == 2 * n + x / 4;
  }

  /** What the flags 7 and 3 allow. */
  lemma FlagsAllow(e: nat)
    ensures e % 8 == 7 ==> Present(e) && Writable(e) && User(e)
    ensures e % 8 == 3 ==> Present(e) && Writable(e) && !User(e)
    ensures e == 0 ==> !Present(e)
  {
    hide Writable, User, Present;
    EightMore(e / 8, e % 8);
    SmallFlags();
  }

  lemma SmallFlags()
    ensures Present(7) && Writable(7) && User(7) && Present(3) && Writable(3) && !User(3) && !Present(0)
  {
  }

  // ---------- the invariant ----------

  function Entry(mem: map<nat, nat>, dir: nat, i: nat): nat
  {
    Word(mem, dir + 4 * i)
  }

  /** A table of the directory: present entries point to page tables and allow everything; there are no other
      entries than these and zeros. */
  ghost predicate TablesOk(mem: map<nat, nat>, dir: nat)
  {
    && dir % PAGE_SIZE == 0 && dir > 0
    && (forall i: nat :: i < SELF && Entry(mem, dir, i) != 0 ==>
          Entry(mem, dir, i) % 8 == 7 && Frame(Entry(mem, dir, i)) != dir && Frame(Entry(mem, dir, i)) > 0)
    && (forall i: nat, j: nat :: i < j < SELF && Entry(mem, dir, i) != 0 && Entry(mem, dir, j) != 0 ==>
          Frame(Entry(mem, dir, i)) != Frame(Entry(mem, dir, j)))
  }

  /** Entry 1023 points at the directory; it can be written, but not by user code. */
  predicate SelfMapped(mem: map<nat, nat>, dir: nat)
  {
    Entry(mem, dir, SELF) % 8 == 3 && Frame(Entry(mem, dir, SELF)) == dir
  }

  /** A frame that is no table and not the directory, with no present entry in it. */
  ghost predicate Fresh(mem: map<nat, nat>, dir: nat, f: nat)
  {
    && f % PAGE_SIZE == 0 && f > 0 && f != dir
    && (forall i: nat :: i < SELF && Entry(mem, dir, i) != 0 ==> Frame(Entry(mem, dir, i)) != f)
    && (forall k: nat :: k < ENTRIES ==> !Present(Word(mem, f + 4 * k)))
  }

  /** Words of different frames are different. */
  lemma FramesApart(f: nat, g: nat, i: nat, j: nat)
    requires f % PAGE_SIZE == 0 && g % PAGE_SIZE == 0 && i < ENTRIES && j < ENTRIES
    ensures f + 4 * i == g + 4 * j <==> f == g && i == j
  {
  }

  // ---------- the self-map ----------

  /** Through the self-map, word `page` of table `idx` is found where the table is, but not by user code. */
  lemma SelfMapFaithful(mem: map<nat, nat>, dir: nat, idx: nat, page: nat)
    requires SelfMapped(mem, dir) && idx < ENTRIES && page < ENTRIES
    ensures Walk(mem, dir, PAGETABLES_VIRTUAL_LOC + PAGE_SIZE * idx + 4 * page)
         == if Present(Entry(mem, dir, idx)) then At(Frame(Entry(mem, dir, idx)) + 4 * page, Writable(Entry(mem, dir, idx)), false)
            else NotPresent
  {
    var v := PAGETABLES_VIRTUAL_LOC + PAGE_SIZE * idx + 4 * page;
    assert v == (SELF * ENTRIES + idx) * PAGE_SIZE + 4 * page;
    Parts(SELF, idx, 4 * page);
  }

  /** And the directory itself is table 1023. */
  lemma DirectoryVisible(mem: map<nat, nat>, dir: nat, idx: nat)
    requires SelfMapped(mem, dir) && idx < ENTRIES
    ensures Walk(mem, dir, PAGEDIR_VIRTUAL_LOC + 4 * idx) == At(dir + 4 * idx, true, false)
  {
    hide Walk, Present, Writable, User, Frame;
    FlagsAllow(Entry(mem, dir, SELF));
    SelfMapFaithful(mem, dir, SELF, idx);
    assert PAGETABLES_VIRTUAL_LOC + PAGE_SIZE * SELF + 4 * idx == PAGEDIR_VIRTUAL_LOC + 4 * idx;
  }

  // ---------- one entry changes ----------

  /** Creating an empty table translates nothing. */
  lemma NewTable(mem: map<nat, nat>, dir: nat, idx: nat, f: nat)
    requires TablesOk(mem, dir) && idx < SELF && Entry(mem, dir, idx) == 0 && Fresh(mem, dir, f)
    ensures var mem' := mem[dir + 4 * idx := f + 7];
            && TablesOk(mem', dir) && Entry(mem', dir, idx) == f + 7 && Frame(f + 7) == f && Present(f + 7)
            && (SelfMapped(mem, dir) ==> SelfMapped(mem', dir))
            && forall v: nat :: DirIndex(v) < SELF ==> Walk(mem', dir, v) == Walk(mem, dir, v)
  {
    var mem' := mem[dir + 4 * idx := f + 7];
    FrameOf(f, 7);
    forall i: nat | i < ENTRIES
      ensures Entry(mem', dir, i) == if i == idx then f + 7 else Entry(mem, dir, i)
    {
    }
    forall v: nat | DirIndex(v) < SELF
      ensures Walk(mem', dir, v) == Walk(mem, dir, v)
    {
      NewTableWalk(mem, dir, idx, f, v);
    }
  }

  /** Hanging a frame in as a table keeps all translations if and only if the frame holds no present entry.
      The code does not clear it. */
  lemma NewTableExactly(mem: map<nat, nat>, dir: nat, idx: nat, f: nat)
    requires TablesOk(mem, dir) && idx < SELF && Entry(mem, dir, idx) == 0 && NoTable(mem, dir, f)
    ensures (forall v: nat :: DirIndex(v) < SELF ==> Walk(mem[dir + 4 * idx := f + 7], dir, v) == Walk(mem, dir, v))
       <==> Fresh(mem, dir, f)
  {
    hide Frame, DirIndex, PageIndex;
    if Fresh(mem, dir, f) {
      NewTable(mem, dir, idx, f);
    } else {
      var k: nat :| k < ENTRIES && Present(Word(mem, f + 4 * k));
      var v := (idx * ENTRIES + k) * PAGE_SIZE;
      Parts(idx, k, 0);
      FrameOf(f, 7);
      FramesApart(f, dir, k, idx);
      assert Walk(mem, dir, v) == NotPresent;
      assert Walk(mem[dir + 4 * idx := f + 7], dir, v).At?;
    }
  }

  lemma NewTableWalk(mem: map<nat, nat>, dir: nat, idx: nat, f: nat, v: nat)
    requires TablesOk(mem, dir) && idx < SELF && Entry(mem, dir, idx) == 0 && Fresh(mem, dir, f) && DirIndex(v) < SELF
    ensures Walk(mem[dir + 4 * idx := f + 7], dir, v) == Walk(mem, dir, v)
  {
    hide Frame, DirIndex, PageIndex;
    FrameOf(f, 7);
    var mem' := mem[dir + 4 * idx := f + 7];
    var d, p := DirIndex(v), PageIndex(v);
    var de := Entry(mem, dir, d);
    if d == idx {
      FramesApart(f, dir, p, idx);
      assert !Present(Word(mem, f + 4 * p));
    } else if Present(de) {
      FramesApart(Frame(de), dir, p, idx);
    }
  }

  /** Writing a table entry changes the translation of that page, and of no other outside the self-map. */
  lemma NewPageEntry(mem: map<nat, nat>, dir: nat, v: nat, e: nat)
    requires TablesOk(mem, dir) && DirIndex(v) < SELF && Entry(mem, dir, DirIndex(v)) != 0 && Present(e)
    ensures var a := Frame(Entry(mem, dir, DirIndex(v))) + 4 * PageIndex(v);
            var mem' := mem[a := e];
            && TablesOk(mem', dir) && (SelfMapped(mem, dir) ==> SelfMapped(mem', dir))
            && (forall i: nat :: i < ENTRIES ==> Entry(mem', dir, i) == Entry(mem, dir, i))
            && forall w: nat :: DirIndex(w) < SELF ==>
                 Walk(mem', dir, w) == if w / PAGE_SIZE == v / PAGE_SIZE then At(Frame(e) + w % PAGE_SIZE, Writable(e), User(e)) else Walk(mem, dir, w)
  {
    hide Frame, DirIndex, PageIndex;
    var t := Frame(Entry(mem, dir, DirIndex(v)));
    var mem' := mem[t + 4 * PageIndex(v) := e];
    forall i: nat | i < ENTRIES
      ensures Entry(mem', dir, i) == Entry(mem, dir, i)
    {
      FramesApart(t, dir, PageIndex(v), i);
    }
    forall w: nat | DirIndex(w) < SELF
      ensures Walk(mem', dir, w) == if w / PAGE_SIZE == v / PAGE_SIZE then At(Frame(e) + w % PAGE_SIZE, Writable(e), User(e)) else Walk(mem, dir, w)
    {
      NewEntryWalk(mem, dir, v, e, w);
    }
  }

  lemma NewEntryWalk(mem: map<nat, nat>, dir: nat, v: nat, e: nat, w: nat)
    requires TablesOk(mem, dir) && DirIndex(v) < SELF && Entry(mem, dir, DirIndex(v)) != 0 && Present(e) && DirIndex(w) < SELF
    ensures var mem' := mem[Frame(Entry(mem, dir, DirIndex(v))) + 4 * PageIndex(v) := e];
            Walk(mem', dir, w) == if w / PAGE_SIZE == v / PAGE_SIZE then At(Frame(e) + w % PAGE_SIZE, Writable(e), User(e)) else Walk(mem, dir, w)
  {
    hide Frame, DirIndex, PageIndex, Present, Writable, User;
    SamePage(v, w);
    FlagsAllow(Entry(mem, dir, DirIndex(v)));
    FlagsAllow(Entry(mem, dir, DirIndex(w)));
    var d, de := DirIndex(v), Entry(mem, dir, DirIndex(w));
    var t := Frame(Entry(mem, dir, d));
    FramesApart(t, dir, PageIndex(v), DirIndex(w));
    FramesApart(t, Frame(de), PageIndex(v), PageIndex(w));
    if DirIndex(w) < d {
      assert de != 0 ==> Frame(de) != t;
    } else if d < DirIndex(w) {
      assert de != 0 ==> Frame(de) != t;
    }
  }

  class PageDirectory {
    /** Physical memory, the directory in it, and whether paging is on. */
    var mem: map<nat, nat>
    const dir: nat
    const paging: bool

    ghost predicate Valid()
      reads this
    {
      TablesOk(mem, dir) && (paging ==> SelfMapped(mem, dir))
    }

    constructor (mem: map<nat, nat>, dir: nat, paging: bool)
      requires TablesOk(mem, dir) && (paging ==> SelfMapped(mem, dir))
      ensures Valid() && this.mem == mem && this.dir == dir && this.paging == paging
    {
      this.mem, this.dir, this.paging := mem, dir, paging;
    }

    /** A load through the processor's translation. */
    method Load(v: nat, ghost a: nat) returns (x: nat)
      requires Walk(mem, dir, v).At? && Walk(mem, dir, v).phys == a
      ensures x == Word(mem, a)
    {
      x := Word(mem, Walk(mem, dir, v).phys);
    }

    method Store(v: nat, x: nat, ghost a: nat)
      requires Walk(mem, dir, v).At? && Walk(mem, dir, v).phys == a && Walk(mem, dir, v).writable
      modifies this
      ensures mem == old(mem)[a := x]
    {
      var p := Walk(mem, dir, v).phys;
      mem := mem[p := x];
    }

    /** The table for a directory index, made from the frame if there is none. The result is a virtual
        address with paging on, and a physical one without. */
    method GetPageTable(idx: nat, newFrame: nat) returns (table: nat)
      requires Valid() && idx < SELF && (Entry(mem, dir, idx) == 0 ==> Fresh(mem, dir, newFrame))
      modifies this
      ensures Valid() && Entry(mem, dir, idx) != 0
      ensures mem == if Entry(old(mem), dir, idx) == 0 then old(mem)[dir + 4 * idx := newFrame + 7] else old(mem)
      ensures table == if paging then PAGETABLES_VIRTUAL_LOC + PAGE_SIZE * idx else Frame(Entry(mem, dir, idx))
      ensures forall v: nat :: DirIndex(v) < SELF ==> Walk(mem, dir, v) == Walk(old(mem), dir, v)
    {
      hide Walk, Frame, TablesOk, Fresh;
      if Entry(mem, dir, idx) == 0 {
        NewTable(mem, dir, idx, newFrame);
      }
      if paging {
        DirectoryVisible(mem, dir, idx);
        var entry := Load(PAGEDIR_VIRTUAL_LOC + 4 * idx, dir + 4 * idx);
        if entry == 0 {
          Store(PAGEDIR_VIRTUAL_LOC + 4 * idx, newFrame + 7, dir + 4 * idx);
        }
        table := PAGETABLES_VIRTUAL_LOC + PAGE_SIZE * idx;
      } else {
        TableOrZero(mem, dir, idx);
        table := Frame(Word(mem, dir + 4 * idx));
        if table == 0 {
          table := newFrame;
          mem := mem[dir + 4 * idx := table + 7];
        }
      }
    }

    lemma TableOrZero(mem: map<nat, nat>, dir: nat, idx: nat)
      requires TablesOk(mem, dir) && idx < SELF
      ensures Frame(Entry(mem, dir, idx)) == 0 <==> Entry(mem, dir, idx) == 0
    {
    }

    /** Maps one page: exactly the translations of that page change, and its rights are those asked for. */
    method MapPage(phys: nat, virt: nat, permissions: nat, newFrame: nat) returns (ok: bool)
      requires Valid() && DirIndex(virt) < SELF
      requires Entry(mem, dir, DirIndex(virt)) == 0 ==> Fresh(mem, dir, newFrame)
      modifies this
      ensures Valid()
      ensures ok <==> phys % PAGE_SIZE == 0 && virt % PAGE_SIZE == 0
      ensures !ok ==> mem == old(mem)
      ensures ok ==> forall w: nat :: DirIndex(w) < SELF ==>
                Walk(mem, dir, w) == if w / PAGE_SIZE == virt / PAGE_SIZE
                                     then At(phys + w % PAGE_SIZE, Writable(permissions), User(permissions))
                                     else Walk(old(mem), dir, w)
      ensures ok ==> OnlyTables(old(mem), mem, dir, DirIndex(virt), newFrame)
    {
      hide Walk, Frame, TablesOk, Fresh, PageIndex, DirIndex, Entry, Writable, User;
      ok := phys % PAGE_SIZE == 0 && virt % PAGE_SIZE == 0;
      if !ok {
        return;
      }
      var directoryIdx, pageIdx := DirIndex(virt), PageIndex(virt);
      var flags := (permissions / 2 * 2 + 1) % PAGE_SIZE;
      OddFlags(permissions);
      var entry := phys + flags;
      FrameOf(phys, flags);
      var table := GetPageTable(directoryIdx, newFrame);
      ghost var mem1 := mem;
      ghost var target := Frame(Entry(mem1, dir, directoryIdx)) + 4 * pageIdx;
      NewPageEntry(mem1, dir, virt, entry);
      TablePresent(mem1, dir, directoryIdx);
      if paging {
        SelfMapFaithful(mem1, dir, directoryIdx, pageIdx);
        Store(table + 4 * pageIdx, entry, target);
      } else {
        mem := mem[table + 4 * pageIdx := entry];
      }
      OnlyTablesHere(old(mem), mem1, mem, dir, directoryIdx, newFrame, pageIdx, entry);
    }

    /** Maps a range of pages; exactly their translations change. The pool holds the frames that will be
        handed out for new tables. */
    method MapRange(phys: nat, virt: nat, bytes: nat, permissions: nat, pool: seq<nat>) returns (ok: bool)
      requires Valid() && PoolOk(mem, dir, pool) && Pages(bytes) <= |pool| && virt + PAGE_SIZE * Pages(bytes) <= PAGETABLES_VIRTUAL_LOC
      modifies this
      ensures Valid()
      ensures ok <==> phys % PAGE_SIZE == 0 && virt % PAGE_SIZE == 0
      ensures !ok ==> mem == old(mem)
      ensures ok ==> forall w: nat :: DirIndex(w) < SELF ==>
                Walk(mem, dir, w) == if virt <= w < virt + PAGE_SIZE * Pages(bytes)
                                     then At(phys + (w - virt), Writable(permissions), User(permissions))
                                     else Walk(old(mem), dir, w)
    {
      hide Walk, TablesOk, DirIndex, Entry, PoolOk, Frame;
      ok := phys % PAGE_SIZE == 0 && virt % PAGE_SIZE == 0;
      if !ok {
        return;
      }
      ghost var mem0 := mem;
      var i, n, u := 0, 0, 0;
      while i < bytes
        invariant i == PAGE_SIZE * n && n <= Pages(bytes) && u <= n && Valid() && PoolOk(mem, dir, pool[u..])
        invariant forall w: nat :: DirIndex(w) < SELF ==>
                    Walk(mem, dir, w) == if virt <= w < virt + PAGE_SIZE * n
                                         then At(phys + (w - virt), Writable(permissions), User(permissions))
                                         else Walk(mem0, dir, w)
        decreases bytes - i
      {
        BelowSelf(virt + i);
        var idx := DirIndex(virt + i);
        var needed := Entry(mem, dir, idx) == 0;
        ghost var mem1 := mem;
        PoolFirst(mem, dir, pool, u);
        var done := MapPage(phys + i, virt + i, permissions, pool[u]);
        PoolLeft(mem1, mem, dir, pool, u, idx);
        PageSteps(virt, phys, n);
        i := i + PAGE_SIZE;
        n := n + 1;
        if needed {
          u := u + 1;
        }
      }
    }

    /** The copy constructor: a new directory with the same translations, mapped into itself. */
    method CopyTo(newDir: nat, newFrame: nat)
      requires Valid() && paging && NoTable(mem, dir, newDir) && newDir != newFrame
      requires Entry(mem, dir, DirIndex(PAGE_DIR_TEMP_LOC)) == 0 ==> Fresh(mem, dir, newFrame)
      modifies this
      ensures Valid() && TablesOk(mem, newDir) && SelfMapped(mem, newDir)
      ensures forall w: nat :: DirIndex(w) < SELF ==> Walk(mem, newDir, w) == Walk(mem, dir, w)
      ensures forall w: nat :: DirIndex(w) < SELF && w / PAGE_SIZE != PAGE_DIR_TEMP_LOC / PAGE_SIZE ==>
                Walk(mem, dir, w) == Walk(old(mem), dir, w)
    {
      hide Walk, TablesOk, DirIndex, Entry, Frame, Fresh, NoTable, OnlyTables;
      TempPlace();
      FrameAligned(mem, dir, newDir);
      ghost var mem0 := mem;
      var ok := MapPage(newDir, PAGE_DIR_TEMP_LOC, 2, newFrame);
      NewDirApart(mem0, mem, dir, newDir, newFrame, DirIndex(PAGE_DIR_TEMP_LOC));
      ghost var mem1 := mem;
      var i := 0;
      while i < ENTRIES
        invariant i <= ENTRIES && Valid() && NoTable(mem, dir, newDir)
        invariant forall k: nat :: k < i ==> Word(mem, newDir + 4 * k) == Entry(mem, dir, k)
        invariant forall w: nat :: DirIndex(w) < SELF ==> Walk(mem, dir, w) == Walk(mem1, dir, w)
      {
        TempWord(i);
        DirectoryVisible(mem, dir, i);
        var x := Load(PAGEDIR_VIRTUAL_LOC + 4 * i, dir + 4 * i);
        OutsideWrite(mem, dir, newDir, i, x);
        EntryIs(mem, dir, i);
        CopiedEntries(mem, dir, newDir, i, x);
        Store(PAGE_DIR_TEMP_LOC + 4 * i, x, newDir + 4 * i);
        i := i + 1;
      }
      TempWord(SELF);
      OutsideWrite(mem, dir, newDir, SELF, newDir + 3);
      CopiedDirectory(mem, dir, newDir);
      Store(PAGE_DIR_TEMP_LOC + 4 * SELF, newDir + 3, newDir + 4 * SELF);
    }

    lemma OddFlags(permissions: nat)
      ensures var flags := (permissions / 2 * 2 + 1) % PAGE_SIZE;
              && flags < PAGE_SIZE && Present(flags)
              && Writable(flags) == Writable(permissions) && User(flags) == User(permissions)
    {
      hide Present, Writable, User;
      var odd := permissions / 2 * 2 + 1;
      OddBits(permissions);
      EightMore(512 * (odd / PAGE_SIZE), odd % PAGE_SIZE);
    }
  }

  lemma OddBits(x: nat)
    ensures var odd := x / 2 * 2 + 1; Present(odd) && Writable(odd) == Writable(x) && User(odd) == User(x)
  {
    var odd := x / 2 * 2 + 1;
    assert odd / 2 == x / 2;
    assert odd / 4 == x / 2 / 2 == x / 4;
  }

  lemma TablePresent(mem: map<nat, nat>, dir: nat, idx: nat)
    requires TablesOk(mem, dir) && idx < SELF && Entry(mem, dir, idx) != 0
    ensures Present(Entry(mem, dir, idx)) && Writable(Entry(mem, dir, idx)) && User(Entry(mem, dir, idx))
  {
    hide Present, Writable, User, Frame;
    FlagsAllow(Entry(mem, dir, idx));
  }

  /** Memory has changed only at one directory entry and in the table it points to. */
  ghost predicate OnlyTables(mem: map<nat, nat>, mem': map<nat, nat>, dir: nat, idx: nat, newFrame: nat)
  {
    && (forall i: nat :: i < ENTRIES && i != idx ==> Entry(mem', dir, i) == Entry(mem, dir, i))
    && Entry(mem', dir, idx) == (if Entry(mem, dir, idx) == 0 then newFrame + 7 else Entry(mem, dir, idx))
    && forall f: nat, k: nat :: f % PAGE_SIZE == 0 && k < ENTRIES && f != dir && f != Frame(Entry(mem', dir, idx)) ==>
         Word(mem', f + 4 * k) == Word(mem, f + 4 * k)
  }

  lemma OnlyTablesHere(mem: map<nat, nat>, mem1: map<nat, nat>, mem2: map<nat, nat>, dir: nat, idx: nat, newFrame: nat,
                       page: nat, e: nat)
    requires TablesOk(mem1, dir) && idx < SELF && page < ENTRIES && Entry(mem1, dir, idx) != 0
    requires mem1 == if Entry(mem, dir, idx) == 0 then mem[dir + 4 * idx := newFrame + 7] else mem
    requires mem2 == mem1[Frame(Entry(mem1, dir, idx)) + 4 * page := e]
    ensures OnlyTables(mem, mem2, dir, idx, newFrame)
  {
    hide Frame;
    var t := Frame(Entry(mem1, dir, idx));
    forall i: nat | i < ENTRIES
      ensures Entry(mem2, dir, i) == Entry(mem1, dir, i)
    {
      FramesApart(t, dir, page, i);
    }
    forall f: nat, k: nat | f % PAGE_SIZE == 0 && k < ENTRIES && f != dir && f != Frame(Entry(mem2, dir, idx))
      ensures Word(mem2, f + 4 * k) == Word(mem, f + 4 * k)
    {
      FramesApart(t, f, page, k);
      FramesApart(dir, f, idx, k);
    }
  }

  // ---------- ranges ----------

  function Pages(bytes: nat): nat
  {
    (bytes + PAGE_SIZE - 1) / PAGE_SIZE
  }

  ghost predicate PoolOk(mem: map<nat, nat>, dir: nat, pool: seq<nat>)
  {
    && (forall i :: 0 <= i < |pool| ==> Fresh(mem, dir, pool[i]))
    && (forall i, j :: 0 <= i < j < |pool| ==> pool[i] != pool[j])
  }

  lemma BelowSelf(v: nat)
    requires v < PAGETABLES_VIRTUAL_LOC
    ensures DirIndex(v) < SELF
  {
  }

  lemma PoolFirst(mem: map<nat, nat>, dir: nat, pool: seq<nat>, u: nat)
    requires u < |pool| && PoolOk(mem, dir, pool[u..])
    ensures Fresh(mem, dir, pool[u])
  {
    assert pool[u..][0] == pool[u];
  }

  /** The frames that are left are still fresh. */
  lemma PoolLeft(mem: map<nat, nat>, mem': map<nat, nat>, dir: nat, pool: seq<nat>, u: nat, idx: nat)
    requires u < |pool| && PoolOk(mem, dir, pool[u..]) && OnlyTables(mem, mem', dir, idx, pool[u]) && idx < SELF
    ensures PoolOk(mem', dir, pool[if Entry(mem, dir, idx) == 0 then u + 1 else u..])
  {
    hide Frame, Fresh;
    var k := if Entry(mem, dir, idx) == 0 then u + 1 else u;
    var rest := pool[k..];
    forall i | 0 <= i < |rest|
      ensures Fresh(mem', dir, rest[i])
    {
      assert rest[i] == pool[u..][k - u + i];
      assert pool[u..][0] == pool[u];
      FreshStays(mem, mem', dir, idx, pool[u], rest[i]);
    }
    forall i, j | 0 <= i < j < |rest|
      ensures rest[i] != rest[j]
    {
      assert rest[i] == pool[u..][k - u + i] && rest[j] == pool[u..][k - u + j];
    }
  }

  lemma FreshStays(mem: map<nat, nat>, mem': map<nat, nat>, dir: nat, idx: nat, newFrame: nat, f: nat)
    requires Fresh(mem, dir, f) && Fresh(mem, dir, newFrame) && OnlyTables(mem, mem', dir, idx, newFrame) && idx < SELF
    requires Entry(mem, dir, idx) == 0 ==> f != newFrame
    ensures Fresh(mem', dir, f)
  {
    hide Frame, Entry;
    FrameOf(newFrame, 7);
    forall i: nat | i < SELF && Entry(mem', dir, i) != 0
      ensures Frame(Entry(mem', dir, i)) != f
    {
      if i != idx { assert Entry(mem', dir, i) == Entry(mem, dir, i); }
    }
    forall k: nat | k < ENTRIES
      ensures !Present(Word(mem', f + 4 * k))
    {
      assert !Present(Word(mem, f + 4 * k));
    }
  }

  /** Page n of the range. */
  lemma PageSteps(virt: nat, phys: nat, n: nat)
    requires virt % PAGE_SIZE == 0
    ensures forall w: nat :: w / PAGE_SIZE == (virt + PAGE_SIZE * n) / PAGE_SIZE
              <==> virt + PAGE_SIZE * n <= w < virt + PAGE_SIZE * n + PAGE_SIZE
    ensures forall w: nat :: w / PAGE_SIZE == (virt + PAGE_SIZE * n) / PAGE_SIZE ==>
              phys + PAGE_SIZE * n + w % PAGE_SIZE == phys + (w - virt)
  {
    forall w: nat
      ensures w / PAGE_SIZE == (virt + PAGE_SIZE * n) / PAGE_SIZE
              <==> virt + PAGE_SIZE * n <= w < virt + PAGE_SIZE * n + PAGE_SIZE
      ensures w / PAGE_SIZE == (virt + PAGE_SIZE * n) / PAGE_SIZE ==> w % PAGE_SIZE == w - virt - PAGE_SIZE * n
    {
      PageOf(w, virt / PAGE_SIZE + n);
      assert virt + PAGE_SIZE * n == PAGE_SIZE * (virt / PAGE_SIZE + n);
    }
  }

  lemma PageOf(w: nat, q: nat)
    ensures w / PAGE_SIZE == q <==> PAGE_SIZE * q <= w < PAGE_SIZE * q + PAGE_SIZE
    ensures w / PAGE_SIZE == q ==> w % PAGE_SIZE == w - PAGE_SIZE * q
    ensures (PAGE_SIZE * q) / PAGE_SIZE == q
  {
  }

  // ---------- copying a directory ----------

  /** A frame that no entry of the directory points to, and that is not the directory. */
  ghost predicate NoTable(mem: map<nat, nat>, dir: nat, f: nat)
  {
    && f % PAGE_SIZE == 0 && f > 0 && f != dir
    && forall i: nat :: i < SELF && Entry(mem, dir, i) != 0 ==> Frame(Entry(mem, dir, i)) != f
  }

  /** Writing to such a frame changes no translation. */
  lemma OutsideWrite(mem: map<nat, nat>, dir: nat, f: nat, k: nat, x: nat)
    requires TablesOk(mem, dir) && NoTable(mem, dir, f) && k < ENTRIES
    ensures var mem' := mem[f + 4 * k := x];
            && TablesOk(mem', dir) && NoTable(mem', dir, f) && (SelfMapped(mem, dir) ==> SelfMapped(mem', dir))
            && (forall i: nat :: i < ENTRIES ==> Entry(mem', dir, i) == Entry(mem, dir, i))
            && forall w: nat :: DirIndex(w) < SELF ==> Walk(mem', dir, w) == Walk(mem, dir, w)
  {
    hide Frame, DirIndex, PageIndex;
    var mem' := mem[f + 4 * k := x];
    forall i: nat | i < ENTRIES
      ensures Entry(mem', dir, i) == Entry(mem, dir, i)
    {
      FramesApart(f, dir, k, i);
    }
    forall w: nat | DirIndex(w) < SELF
      ensures Walk(mem', dir, w) == Walk(mem, dir, w)
    {
      var de := Entry(mem, dir, DirIndex(w));
      FramesApart(f, dir, k, DirIndex(w));
      FramesApart(f, Frame(de), k, PageIndex(w));
    }
  }

  lemma TempPlace()
    ensures DirIndex(PAGE_DIR_TEMP_LOC) < SELF && PAGE_DIR_TEMP_LOC % PAGE_SIZE == 0
  {
  }

  lemma FrameAligned(mem: map<nat, nat>, dir: nat, f: nat)
    requires NoTable(mem, dir, f)
    ensures f % PAGE_SIZE == 0 && f != dir
  {
  }

  lemma TempWord(i: nat)
    requires i < ENTRIES
    ensures DirIndex(PAGE_DIR_TEMP_LOC + 4 * i) < SELF
    ensures (PAGE_DIR_TEMP_LOC + 4 * i) / PAGE_SIZE == PAGE_DIR_TEMP_LOC / PAGE_SIZE && (PAGE_DIR_TEMP_LOC + 4 * i) % PAGE_SIZE == 4 * i
  {
  }

  lemma EntryIs(mem: map<nat, nat>, dir: nat, i: nat)
    ensures Entry(mem, dir, i) == Word(mem, dir + 4 * i)
  {
  }

  lemma NewDirApart(mem: map<nat, nat>, mem': map<nat, nat>, dir: nat, newDir: nat, newFrame: nat, idx: nat)
    requires NoTable(mem, dir, newDir) && OnlyTables(mem, mem', dir, idx, newFrame) && newDir != newFrame && idx < SELF
    requires Entry(mem, dir, idx) == 0 ==> Fresh(mem, dir, newFrame)
    ensures NoTable(mem', dir, newDir)
  {
    hide Frame, Entry;
    forall i: nat | i < SELF && Entry(mem', dir, i) != 0
      ensures Frame(Entry(mem', dir, i)) != newDir
    {
      if i != idx {
        assert Entry(mem', dir, i) == Entry(mem, dir, i);
      } else if Entry(mem, dir, idx) == 0 {
        FrameOf(newFrame, 7);
      }
    }
  }

  /** One more entry copied. */
  lemma CopiedEntries(mem: map<nat, nat>, dir: nat, newDir: nat, i: nat, x: nat)
    requires dir % PAGE_SIZE == 0 && newDir % PAGE_SIZE == 0 && dir != newDir && i < ENTRIES && x == Entry(mem, dir, i)
    requires forall k: nat :: k < i ==> Word(mem, newDir + 4 * k) == Entry(mem, dir, k)
    ensures var mem' := mem[newDir + 4 * i := x];
            forall k: nat :: k < i + 1 ==> Word(mem', newDir + 4 * k) == Entry(mem', dir, k)
  {
    var mem', n := mem[newDir + 4 * i := x], i + 1;
    forall k: nat | k < n
      ensures Word(mem', newDir + 4 * k) == Entry(mem', dir, k)
    {
      FramesApart(newDir, dir, i, k);
      FramesApart(newDir, newDir, i, k);
      if k < i { assert Word(mem, newDir + 4 * k) == Entry(mem, dir, k); }
    }
  }

  /** With its last entry set, the copy is a directory of its own with the same translations. */
  lemma CopiedDirectory(mem: map<nat, nat>, dir: nat, newDir: nat)
    requires TablesOk(mem, dir) && NoTable(mem, dir, newDir)
    requires forall k: nat :: k < ENTRIES ==> Word(mem, newDir + 4 * k) == Entry(mem, dir, k)
    ensures var mem' := mem[newDir + 4 * SELF := newDir + 3];
            && TablesOk(mem', newDir) && SelfMapped(mem', newDir)
            && forall w: nat :: DirIndex(w) < SELF ==> Walk(mem', newDir, w) == Walk(mem', dir, w)
  {
    hide Frame, DirIndex, PageIndex;
    var mem' := mem[newDir + 4 * SELF := newDir + 3];
    FrameOf(newDir, 3);
    forall i: nat | i < SELF
      ensures Entry(mem', newDir, i) == Entry(mem, dir, i) == Entry(mem', dir, i)
    {
      FramesApart(newDir, newDir, SELF, i);
      FramesApart(newDir, dir, SELF, i);
    }
    forall w: nat | DirIndex(w) < SELF
      ensures Walk(mem', newDir, w) == Walk(mem', dir, w)
    {
      assert Entry(mem', newDir, DirIndex(w)) == Entry(mem', dir, DirIndex(w));
    }
  }

  /** What a program loader asks for: a page that user code may write. */
  method LoaderPage(pages: PageDirectory, newFrame: nat)
    requires pages.Valid() && (Entry(pages.mem, pages.dir, 0) == 0 ==> Fresh(pages.mem, pages.dir, newFrame))
    modifies pages
    ensures Walk(pages.mem, pages.dir, 0x5678) == At(0x40_0678, true, true)
  {
    hide Walk, TablesOk, Fresh, Entry, OnlyTables;
    var ok := pages.MapPage(0x40_0000, 0x5000, 6, newFrame);
  }
}
