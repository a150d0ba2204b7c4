/** The frame allocator, the page tables and the address-space part of fork,
    with memory updated in place. */
module AddressSpaces {
  import opened FrameModel
  import opened FrameSteps
  import opened TableSteps
  import opened LowSteps
  import opened SpaceModel
  import opened SpaceSteps
  import opened SpaceLoops

  class Memory {
    const start: nat
    const limit: nat
    const memPages: nat
    const ioApic: nat
    const localApic: nat
    var mem: seq<Page>
    var firstFree: nat
    var avail: nat
    var shared: nat
    ghost var lowPages: nat
    ghost var free: seq<nat>
    ghost var place: map<nat, Place>

    ghost function C(): Config
      reads this
    {
      Config(start, limit, shared, lowPages, ioApic, localApic)
    }

    ghost function S(): Frames
      reads this
    {
      Frames(mem, free, avail, place)
    }

    ghost predicate Valid()
      reads this
    {
      && Inv(C(), S())
      && firstFree == if free == [] then 0 else free[|free| - 1] * FRAME_SIZE
    }

    /** The low tables are complete, and every frame handed out is accounted for. */
    ghost predicate Ready()
      reads this
    {
      && Valid() && shared != 0 && Whole(S())
      && lowPages == if memPages == 0 then 1 else memPages
    }

    constructor (start: nat, limit: nat, memPages: nat, ioApic: nat, localApic: nat, mem: seq<Page>)
      requires 0 < start <= limit <= |mem| && limit <= PageNumber(PRIVATE, 0) && memPages <= PageNumber(PRIVATE, 0)
      requires PageNumber(PRIVATE, 0) <= ioApic < PageNumber(ENTRIES, 0)
      requires PageNumber(PRIVATE, 0) <= localApic < PageNumber(ENTRIES, 0) && ioApic != localApic
      ensures Valid() && shared == 0 && this.mem == mem && this.memPages == memPages
      ensures C() == Config(start, limit, 0, 0, ioApic, localApic)
      ensures avail == start && free == [] && place == map[]
    {
      this.start, this.limit, this.memPages := start, limit, memPages;
      this.ioApic, this.localApic := ioApic, localApic;
      this.mem, this.firstFree, this.avail, this.shared := mem, 0, start, 0;
      this.lowPages, this.free, this.place := 0, [], map[];
    }

    // -------------------------------------------------------------------
    // Frames
    // -------------------------------------------------------------------

    /** A cleared frame; fails, where the source panics, only when none is left. */
    method AllocFrame() returns (ok: bool, p: nat)
      requires Valid()
      modifies this
      ensures Valid() && C() == old(C())
      ensures ok <==> !Exhausted(old(C()), old(S()))
      ensures ok ==> (S(), p) == Alloc(old(C()), old(S())) && |mem| == |old(mem)| && p < |mem|
      ensures !ok ==> S() == old(S())
    {
      ghost var c, s := C(), S();
      assert free != [] ==> ListOk(s, |free| - 1);
      if firstFree != 0 {
        p := firstFree / FRAME_SIZE;
        assert FrameOk(c, s, p);
        firstFree := mem[p][0];
        free := free[..|free| - 1];
      } else {
        if avail == limit { return false, 0; }
        p := avail;
        avail := avail + 1;
      }
      mem := mem[p := ZeroWords(ENTRIES)];
      place := place[p := Loose];
      ok := true;
      AllocKeepsInv(c, s, S(), p);
    }

    method DeallocFrame(p: nat)
      requires Valid() && p in place && place[p] == Loose
      modifies this
      ensures Valid() && C() == old(C())
      ensures S() == Dealloc(old(C()), old(S()), p)
    {
      ghost var c, s := C(), S();
      if free != [] { assert ListOk(s, |free| - 1); }
      mem := mem[p := mem[p][0 := firstFree]];
      firstFree := p * FRAME_SIZE;
      place := place[p := Free(|free|)];
      free := free + [p];
      DeallocKeepsInv(c, s, p, S());
    }

    // -------------------------------------------------------------------
    // Mapping
    // -------------------------------------------------------------------

    /** Map page `va` in the directory `pd` to frame `pa`, with a new table
        where there is none. Roles are for the caller to settle. */
    method Map(pd: nat, va: nat, pa: nat) returns (ok: bool, ghost t: nat, ghost s': Frames)
      requires Valid() && pd < |mem| && va < PageNumber(ENTRIES, 0)
      requires Present(mem[pd][va / ENTRIES]) ==> FrameOf(mem[pd][va / ENTRIES]) < |mem|
      modifies this
      ensures s' == S() && C() == old(C())
      ensures ok ==> MapWrote(old(C()), old(S()), pd, va / ENTRIES, va % ENTRIES, pa, t, s')
      ensures ok ==> firstFree == if free == [] then 0 else free[|free| - 1] * FRAME_SIZE
      ensures !ok ==> Exhausted(C(), S()) && Valid()
    {
      ghost var c := C();
      var pdi := va / ENTRIES;
      var pti := va % ENTRIES;
      var pde := mem[pd][pdi];
      if !Present(pde) {
        var f;
        ok, f := AllocFrame();
        if !ok { return false, 0, S(); }
        pde := if va == ioApic || va == localApic || va < PRIVATE * ENTRIES then Entry(f, false) else Entry(f, true);
        mem := mem[pd := mem[pd][pdi := pde]];
      }
      var pt := FrameOf(pde);
      var pte :=
        if va == ioApic || va == localApic || va < PRIVATE * ENTRIES then Entry(pa, false) else Entry(pa, true);
      mem := mem[pt := mem[pt][pti := pte]];
      ok, t, s' := true, pt, S();
    }

    /** Map in the directory of a space, where a new table is the space's own. */
    method MapIn(pd: nat, va: nat, pa: nat) returns (ok: bool, ghost t: nat, ghost s1: Frames)
      requires Valid() && IsDirectory(S(), pd) && pd < |mem| && PRIVATE <= va / ENTRIES < ENTRIES
      requires Present(mem[pd][va / ENTRIES]) ==> FrameOf(mem[pd][va / ENTRIES]) < |mem|
      modifies this
      ensures C() == old(C())
      ensures ok ==> MapWrote(old(C()), old(S()), pd, va / ENTRIES, va % ENTRIES, pa, t, s1)
      ensures ok ==> S() == Settle(old(S()), s1, pd, va / ENTRIES, t)
      ensures ok ==> firstFree == if free == [] then 0 else free[|free| - 1] * FRAME_SIZE
      ensures !ok ==> Exhausted(C(), S())
    {
      ghost var none := !Present(mem[pd][va / ENTRIES]);
      ok, t, s1 := Map(pd, va, pa);
      if ok && none { place := place[t := Table(pd, va / ENTRIES)]; }
    }

    /** Build the low tables, which map the kernel's memory to itself. */
    method GlobalInit() returns (ok: bool)
      requires Valid() && shared == 0 && place == map[] && memPages <= PageNumber(PRIVATE, 0)
      modifies this
      ensures ok ==> Ready() && NoSpaces(S())
      ensures !ok ==> Exhausted(C(), S())
    {
      var f;
      ok, f := AllocFrame();
      if !ok { return; }
      ghost var c, s := C(), S();
      shared, lowPages, place := f, 1, place[f := LowDirectory];
      AdoptSharedKeepsInv(c, s, f, C(), S());
      var va := 1;
      while va < memPages
        invariant 1 <= va && (va <= memPages || va == 1) && lowPages == va && shared != 0
        invariant Valid() && NoSpaces(S()) && Whole(S())
      {
        ok := MapLow(va);
        if !ok { return; }
        va := va + 1;
      }
    }

    /** One turn of that loop: map low page `va`. */
    method MapLow(va: nat) returns (ok: bool)
      requires Valid() && AtLow(C(), S(), va) && Whole(S())
      modifies this
      ensures ok ==> Valid() && NoSpaces(S()) && Whole(S()) && shared == old(shared) && lowPages == va + 1
      ensures !ok ==> Exhausted(C(), S())
    {
      ghost var c, s := C(), S();
      ghost var i, j := va / ENTRIES, va % ENTRIES;
      assert SharedOk(c, s, i);
      ghost var t, s1;
      ok, t, s1 := Map(shared, va, va);
      if !ok { return; }
      if Present(s.mem[shared][i]) {
        lowPages := va + 1;
        AddLowPageKeepsInv(c, s, va, i, j, C(), S());
      } else {
        ghost var (a, f) := Alloc(c, s);
        AllocKeepsInv(c, s, a, f);
        AllocLow(c, s, a, f);
        assert Same(s, a, shared);
        place, lowPages := place[t := LowTable(i)], va + 1;
        AddLowTableKeepsInv(c, a, va, i, j, t, C(), WithEntry(a, shared, i, Entry(t, false)), S());
      }
    }

    // -------------------------------------------------------------------
    // Making an address space, and page faults
    // -------------------------------------------------------------------

    /** A new space: the low tables, the APIC pages, and nothing else. */
    method MakePd() returns (ok: bool, pd: nat)
      requires Ready()
      modifies this
      ensures C() == old(C())
      ensures ok ==> Ready() && KeptOutside(old(S()), S(), pd) && !Owned(old(S()), pd)
      ensures ok ==> pd in place && place[pd] == Directory(true) && Protected(C(), S(), pd)
      ensures ok ==> forall k: nat, l: nat {:trigger View(S(), pd, k, l)} | Private(C(), k, l) ::
              View(S(), pd, k, l) == Unmapped
      ensures !ok ==> Exhausted(C(), S())
    {
      ghost var c, s := C(), S();
      ok, pd := CopyShared();
      if !ok { return; }
      ghost var b := S();
      ok := MapApic(pd, ioApic);
      if !ok { return; }
      ghost var e := S();
      ok := MapApic(pd, localApic);
      if !ok { return; }
      ghost var g := S();
      place := place[pd := Directory(true)];
      FinishSpace(c, s, b, e, g, S(), pd);
      SpacesProtected(c, S(), pd);
    }

    /** A new directory with the low entries of the shared one. */
    method CopyShared() returns (ok: bool, pd: nat)
      requires Ready()
      modifies this
      ensures C() == old(C())
      ensures ok ==> Valid() && Whole(S()) && KeptOutside(old(S()), S(), pd) && !Owned(old(S()), pd)
      ensures ok ==> pd in place && place[pd] == Directory(false) && pd < |mem|
      ensures ok ==> forall k: nat, l: nat {:trigger MappedAt(S(), pd, k, l)} | PRIVATE <= k :: !MappedAt(S(), pd, k, l)
      ensures !ok ==> Exhausted(C(), S())
    {
      ghost var c, s := C(), S();
      ok, pd := AllocFrame();
      if !ok { return; }
      ghost var a := S();
      var n := (memPages + ENTRIES - 1) / ENTRIES;
      mem := mem[pd := mem[shared][..n] + mem[pd][n..]];
      place := place[pd := Directory(false)];
      NewDirectory(c, s, a, pd, n, mem[pd], S());
    }

    /** Map an APIC page to itself in a directory under construction. */
    method MapApic(pd: nat, va: nat) returns (ok: bool)
      requires Valid() && Whole(S()) && pd in place && place[pd] == Directory(false) && pd < |mem|
      requires va == ioApic || va == localApic
      requires !MappedAt(S(), pd, va / ENTRIES, va % ENTRIES)
      modifies this
      ensures C() == old(C())
      ensures ok ==> Valid() && Whole(S()) && Moves(C(), old(S()), S(), pd) && SameViews(C(), old(S()), S(), pd)
      ensures ok ==>
                MappedAt(S(), pd, va / ENTRIES, va % ENTRIES) &&
                MappedSame(old(S()), S(), pd, va / ENTRIES, va % ENTRIES)
      ensures !ok ==> Exhausted(C(), S())
    {
      ghost var c, s := C(), S();
      ghost var i, j := va / ENTRIES, va % ENTRIES;
      assert DirEntryOk(c, s, pd, i);
      ghost var t, s1;
      ok, t, s1 := MapIn(pd, va, va);
      if !ok { return; }
      MapSpecialMoves(c, s, pd, i, j, t, s1, S(), {});
    }

    /** A fault on an unmapped page of the process's own part maps a zero page there. */
    method PageFault(pd: nat, va: nat) returns (ok: bool)
      requires Ready() && pd in place && place[pd] == Directory(true)
      requires Private(C(), va / ENTRIES, va % ENTRIES) && !MappedAt(S(), pd, va / ENTRIES, va % ENTRIES)
      modifies this
      ensures C() == old(C())
      ensures ok ==> Ready() && Moves(C(), old(S()), S(), pd)
      ensures ok ==> PutViews(C(), old(S()), S(), pd, va / ENTRIES, va % ENTRIES, Mapped(ZeroWords(ENTRIES)))
      ensures ok ==> Protected(C(), S(), pd)
      ensures !ok ==> Exhausted(C(), S())
    {
      ghost var c, s := C(), S();
      ghost var i, j := va / ENTRIES, va % ENTRIES;
      var pa;
      ok, pa := AllocFrame();
      if !ok { return; }
      ghost var a := S();
      FaultTakes(c, s, a, pa, pd, i, j);
      ghost var t, s1;
      ok, t, s1 := MapIn(pd, va, pa);
      if !ok { return; }
      place := place[pa := Data(pd, i, j)];
      FaultMoves(c, s, a, pa, pd, i, j, t, s1, S());
      SpacesProtected(c, S(), pd);
    }

    /** The process writes a word of one of its pages. */
    method Write(pd: nat, va: nat, offset: nat, word: nat)
      requires Ready() && pd in place && place[pd] == Directory(true) && offset < ENTRIES
      requires Private(C(), va / ENTRIES, va % ENTRIES) && MappedAt(S(), pd, va / ENTRIES, va % ENTRIES)
      modifies this
      ensures C() == old(C()) && Ready() && Moves(C(), old(S()), S(), pd)
      ensures
        var i, j := va / ENTRIES, va % ENTRIES;
        View(old(S()), pd, i, j).Mapped? &&
        PutViews(C(), old(S()), S(), pd, i, j, Mapped(View(old(S()), pd, i, j).words[offset := word]))
    {
      ghost var c, s := C(), S();
      OwnPage(c, s, pd, va / ENTRIES, va % ENTRIES);
      var frame := FrameOf(mem[FrameOf(mem[pd][va / ENTRIES])][va % ENTRIES]);
      mem := mem[frame := mem[frame][offset := word]];
      WriteMoves(c, s, pd, va / ENTRIES, va % ENTRIES, frame, mem[frame], S());
    }

    // -------------------------------------------------------------------
    // Taking an address space apart
    // -------------------------------------------------------------------

    /** Unmap and free the process's own pages; a table goes too, unless it
        holds an APIC page. */
    method DeletePrivate(pd: nat)
      requires Ready() && pd in place && place[pd] == Directory(true)
      modifies this
      ensures C() == old(C()) && Ready() && Moves(C(), old(S()), S(), pd)
      ensures Cleared(C(), old(S()), S(), pd, ENTRIES, 0)
      ensures forall i: nat {:trigger SpecialRow(C(), i)} | PRIVATE <= i < ENTRIES && !SpecialRow(C(), i) ::
              !Present(mem[pd][i])
    {
      ghost var c, s := C(), S();
      var pdi := PRIVATE;
      NothingCleared(c, s, pd);
      while pdi < ENTRIES
        invariant PRIVATE <= pdi <= ENTRIES && C() == c && Ready() && Moves(c, s, S(), pd)
        invariant Cleared(c, s, S(), pd, pdi, 0)
        invariant forall i: nat {:trigger SpecialRow(c, i)} | PRIVATE <= i < pdi && !SpecialRow(c, i) ::
                  !Present(mem[pd][i])
      {
        ghost var m := S();
        if Present(mem[pd][pdi]) {
          ClearTable(pd, pdi);
          MovesTwice(c, s, m, S(), pd);
        }
        ClearedRow(c, s, m, S(), pd, pdi, pdi + 1);
        pdi := pdi + 1;
      }
    }

    /** One turn of that loop: the pages of one table, then the table. */
    method ClearTable(pd: nat, pdi: nat)
      requires Ready() && pd in place && place[pd] == Directory(true) && PRIVATE <= pdi < ENTRIES &&
               Present(mem[pd][pdi])
      modifies this
      ensures C() == old(C()) && Ready() && Moves(C(), old(S()), S(), pd)
      ensures RowCleared(C(), old(S()), S(), pd, pdi, ENTRIES)
      ensures forall i: nat | i < ENTRIES && i != pdi :: mem[pd][i] == old(mem[pd][i])
      ensures !SpecialRow(C(), pdi) ==> !Present(mem[pd][pdi])
    {
      ghost var c, s := C(), S();
      assert DirEntryOk(c, s, pd, pdi);
      var pt := FrameOf(mem[pd][pdi]);
      var containsSpecial := false;
      var pti := 0;
      RowUncleared(c, s, pd, pdi);
      while pti < ENTRIES
        invariant 0 <= pti <= ENTRIES && C() == c && Ready() && Moves(c, s, S(), pd)
        invariant mem[pd] == s.mem[pd]
        invariant RowCleared(c, s, S(), pd, pdi, pti)
        invariant containsSpecial <==> SpecialBefore(c, pdi, pti)
      {
        ghost var m := S();
        assert DirEntryOk(c, m, pd, pdi);
        var va := pdi * ENTRIES + pti;
        if va == ioApic || va == localApic {
          containsSpecial := true;
        } else if Present(mem[pt][pti]) {
          UnmapPage(pd, pdi, pti);
          MovesTwice(c, s, m, S(), pd);
        }
        RowClearedNext(c, s, m, S(), pd, pdi, pti, pti + 1);
        pti := pti + 1;
      }
      SpecialInRow(c, pdi);
      if !containsSpecial {
        ghost var m := S();
        RowEmpty(c, s, m, pd, pdi);
        UnhookTable(pd, pdi);
        MovesTwice(c, s, m, S(), pd);
        RowClearedThen(c, s, m, S(), pd, pdi);
      }
    }

    /** Unhook a table that maps nothing and free its frame. */
    method UnhookTable(pd: nat, pdi: nat)
      requires Ready() && pd in place && place[pd] == Directory(true) && PRIVATE <= pdi < ENTRIES &&
               Present(mem[pd][pdi])
      requires !SpecialRow(C(), pdi) && FrameOf(mem[pd][pdi]) < |mem|
      requires forall j: nat | j < ENTRIES :: !Present(mem[FrameOf(mem[pd][pdi])][j])
      modifies this
      ensures C() == old(C()) && Ready() && Moves(C(), old(S()), S(), pd) && SameViews(C(), old(S()), S(), pd)
      ensures mem[pd] == old(mem[pd])[pdi := 0]
    {
      ghost var c, s := C(), S();
      assert DirEntryOk(c, s, pd, pdi);
      var pt := FrameOf(mem[pd][pdi]);
      mem := mem[pd := mem[pd][pdi := 0]];
      place := place[pt := Loose];
      ghost var m := S();
      DropTableKeepsInv(c, s, pd, pdi, pt, m);
      DeallocFrame(pt);
      ClearTableMoves(c, s, pd, pdi, pt, m, S());
    }

    /** Unmap one page and free its frame. */
    method UnmapPage(pd: nat, pdi: nat, pti: nat)
      requires Ready() && pd in place && place[pd] == Directory(true) && Private(C(), pdi, pti) &&
               MappedAt(S(), pd, pdi, pti)
      modifies this
      ensures C() == old(C()) && Ready() && Moves(C(), old(S()), S(), pd)
      ensures PutViews(C(), old(S()), S(), pd, pdi, pti, Unmapped) && mem[pd] == old(mem[pd])
    {
      ghost var c, s := C(), S();
      OwnPage(c, s, pd, pdi, pti);
      var pt := FrameOf(mem[pd][pdi]);
      var frame := FrameOf(mem[pt][pti]);
      mem := mem[pt := mem[pt][pti := 0]];
      place := place[frame := Loose];
      ghost var m := S();
      DropPageKeepsInv(c, s, pd, pdi, pti, frame, m);
      DeallocFrame(frame);
      ClearPageMoves(c, s, pd, pdi, pti, frame, m, S());
    }

    /** Free every frame of the space: its own pages, its tables, its directory.
        No word of the directory or of a table is cleared on the way. */
    method DeletePd(pd: nat)
      requires Ready() && pd in place && place[pd] == Directory(true)
      modifies this
      ensures C() == old(C()) && Ready() && KeptOutside(old(S()), S(), pd) && Returned(old(S()), S(), pd)
    {
      ghost var c, s := C(), S();
      place := Doomed(s, pd).place;
      DoomedReturning(c, s, pd, S());
      var pdi := PRIVATE;
      while pdi < ENTRIES
        invariant PRIVATE <= pdi <= ENTRIES && C() == c && Valid() && Returning(c, s, S(), pd, pdi, 0)
      {
        ghost var m := S();
        StillThere(c, s, m, pd, pdi, 0);
        if Present(mem[pd][pdi]) {
          FreeTable(pd, pdi, s);
        } else {
          ReturnEmptyRow(c, s, m, pd, pdi, pdi + 1);
        }
        pdi := pdi + 1;
      }
      ghost var m := S();
      assert Within(s, pd, pd) && Fate(s, m, pd, ENTRIES, 0, pd);
      DeallocFrame(pd);
      ReturnDirectory(c, s, m, S(), pd);
    }

    /** One turn of that loop. */
    method FreeTable(pd: nat, pdi: nat, ghost s: Frames)
      requires Valid() && PRIVATE <= pdi < ENTRIES && Returning(C(), s, S(), pd, pdi, 0)
      requires pd < |s.mem| && pd < |mem| && Present(mem[pd][pdi]) && mem[pd] == s.mem[pd]
      modifies this
      ensures C() == old(C()) && Valid() && Returning(C(), s, S(), pd, pdi + 1, 0)
    {
      ghost var c := C();
      var pt := FrameOf(mem[pd][pdi]);
      var pti := 0;
      while pti < ENTRIES
        invariant 0 <= pti <= ENTRIES && C() == c && Valid() && Returning(c, s, S(), pd, pdi, pti)
      {
        ghost var m := S();
        StillThere(c, s, m, pd, pdi, pti);
        var va := pdi * ENTRIES + pti;
        var pte := mem[pt][pti];
        var frame := FrameOf(pte);
        if Present(pte) && !(va < PRIVATE * ENTRIES || va == ioApic || va == localApic) {
          OwnPage(c, s, pd, pdi, pti);
          assert Fate(s, m, pd, pdi, pti, frame);
          DeallocFrame(frame);
        }
        ReturnPage(c, s, m, frame, S(), pd, pdi, pti, pti + 1);
        pti := pti + 1;
      }
      ghost var m := S();
      StillThere(c, s, m, pd, pdi, ENTRIES);
      assert Fate(s, m, pd, pdi, ENTRIES, pt);
      DeallocFrame(pt);
      ReturnTable(c, s, m, pt, S(), pd, pdi, pdi + 1);
    }

    // -------------------------------------------------------------------
    // Fork
    // -------------------------------------------------------------------

    /** A new space with copies of the parent's own pages in frames of its own. */
    method Fork(parent: nat) returns (ok: bool, child: nat)
      requires Ready() && parent in place && place[parent] == Directory(true)
      modifies this
      ensures C() == old(C())
      ensures ok ==> Ready() && KeptOutside(old(S()), S(), child) && !Owned(old(S()), child)
      ensures ok ==> child in place && place[child] == Directory(true)
      ensures ok ==> Copied(C(), old(S()), S(), parent, child, ENTRIES, 0) && Protected(C(), S(), child)
      ensures !ok ==> Exhausted(C(), S())
    {
      ghost var c, s := C(), S();
      ok, child := MakePd();
      if !ok { return; }
      NothingCopied(c, s, S(), parent, child);
      var pdi := PRIVATE;
      while pdi < ENTRIES
        invariant PRIVATE <= pdi <= ENTRIES && ok && C() == c && Ready() && child != parent
        invariant KeptOutside(s, S(), child) && child in place && place[child] == Directory(true)
        invariant Copied(c, s, S(), parent, child, pdi, 0)
      {
        ghost var m := S();
        assert Outside(s, child, parent) && Kept(s, m, child, parent);
        if Present(mem[parent][pdi]) {
          RowStillBlank(c, s, m, parent, child, pdi);
          ok := CopyTable(parent, child, pdi);
          if !ok { return; }
          KeptTwice(c, s, m, S(), child);
        }
        CopiedRow(c, s, m, S(), parent, child, pdi, pdi + 1);
        pdi := pdi + 1;
      }
      SpacesProtected(c, S(), child);
    }

    /** One turn of that loop: copy the pages of one table. */
    method CopyTable(parent: nat, child: nat, pdi: nat) returns (ok: bool)
      requires Ready() && parent in place && place[parent] == Directory(true) && child in place &&
               place[child] == Directory(true)
      requires parent != child && PRIVATE <= pdi < ENTRIES && Present(mem[parent][pdi]) &&
               RowBlank(C(), S(), child, pdi)
      modifies this
      ensures C() == old(C())
      ensures ok ==>
                Ready() && Moves(C(), old(S()), S(), child) &&
                RowCopied(C(), old(S()), S(), parent, child, pdi, ENTRIES)
      ensures !ok ==> Exhausted(C(), S())
    {
      ghost var c, s := C(), S();
      ok := EnsureTable(child, pdi);
      if !ok { return; }
      RowUncopied(c, s, S(), parent, child, pdi);
      var pti := 0;
      while pti < ENTRIES
        invariant 0 <= pti <= ENTRIES && ok && C() == c && Ready() && Moves(c, s, S(), child)
        invariant Present(mem[child][pdi])
        invariant RowCopied(c, s, S(), parent, child, pdi, pti)
      {
        ghost var m := S();
        OwnToCopy(c, s, m, parent, child, pdi, pti);
        assert DirEntryOk(c, m, parent, pdi) && DirEntryOk(c, m, child, pdi);
        if !Present(mem[FrameOf(mem[child][pdi])][pti]) && Present(mem[FrameOf(mem[parent][pdi])][pti]) {
          ok := CopyPage(parent, child, pdi, pti);
          if !ok { return; }
          MovesTwice(c, s, m, S(), child);
        }
        RowCopiedNext(c, s, m, S(), parent, child, pdi, pti, pti + 1);
        pti := pti + 1;
      }
    }

    /** The child's table for a row, new if there is none. */
    method EnsureTable(child: nat, pdi: nat) returns (ok: bool)
      requires Ready() && child in place && place[child] == Directory(true) && PRIVATE <= pdi < ENTRIES
      modifies this
      ensures C() == old(C())
      ensures ok ==>
                Ready() && Moves(C(), old(S()), S(), child) && SameViews(C(), old(S()), S(), child) &&
                Present(mem[child][pdi])
      ensures !ok ==> Exhausted(C(), S())
    {
      ghost var c, s := C(), S();
      if Present(mem[child][pdi]) { return true; }
      var childPt;
      ok, childPt := AllocFrame();
      if !ok { return; }
      ghost var a := S();
      AllocMoves(c, s, a, childPt, child, {});
      assert ApicsOk(c, a, child);
      mem := mem[child := mem[child][pdi := Entry(childPt, true)]];
      place := place[childPt := Table(child, pdi)];
      AddTableMoves(c, a, child, pdi, childPt, Entry(childPt, true), S(), {childPt});
      MovesTwice(c, s, a, S(), child);
      SameTwice(c, s, a, S(), child);
    }

    /** Copy one page into a new frame. */
    method CopyPage(parent: nat, child: nat, pdi: nat, pti: nat) returns (ok: bool)
      requires Ready() && parent in place && place[parent] == Directory(true) && child in place &&
               place[child] == Directory(true)
      requires parent != child && Private(C(), pdi, pti) && Present(mem[child][pdi])
      requires MappedAt(S(), parent, pdi, pti) && !MappedAt(S(), child, pdi, pti)
      modifies this
      ensures C() == old(C())
      ensures ok ==> Ready() && Moves(C(), old(S()), S(), child) && mem[child] == old(mem[child])
      ensures ok ==> PutViews(C(), old(S()), S(), child, pdi, pti, View(old(S()), parent, pdi, pti))
      ensures !ok ==> Exhausted(C(), S())
    {
      ghost var c, s := C(), S();
      CopyRoom(c, s, parent, child, pdi, pti);
      var parentFrame := FrameOf(mem[FrameOf(mem[parent][pdi])][pti]);
      var childPt := FrameOf(mem[child][pdi]);
      var frame;
      ok, frame := AllocFrame();
      if !ok { return; }
      ghost var a := S();
      mem := mem[frame := mem[parentFrame]];
      mem := mem[childPt := mem[childPt][pti := Entry(frame, true)]];
      place := place[frame := Data(child, pdi, pti)];
      CopyDone(c, s, parentFrame, child, pdi, pti, childPt, a, frame, Entry(frame, true), S());
    }
  }
}
