// The long-mode page tables in guest RAM, and the boot-time writes around them.
module PageTables {
  import opened Wrappers
  import opened GuestMemory
  import LittleEndian

  const PML4 := 0x8000
  const PDPT := 0x9000
  const PD0 := 0xA000
  const GDT := 0xB000
  const TSS := 0xC000
  const PD3 := 0xD000
  const KERNEL_LOAD_ADDR := 0x20_0000
  const INITRD_ADDR := 0x400_0000
  const CMDLINE_GPA := 0x2_0000
  const FIRMWARE_GPA := 0x100_0000

  /* The walk of Intel SDM Vol. 3A, section 4.5, over the bytes of RAM. */

  const GIB := 0x4000_0000
  const SIZE_2M := 0x20_0000

  // The 8-byte little-endian entry at a physical address; unbacked memory reads as not present.
  function EntryAt(ram: seq<U8>, at: nat): nat {
    if at + 8 <= |ram| then LittleEndian.Decode(ram[at..at + 8]) else 0
  }

  predicate Present(e: nat) {
    e % 2 == 1
  }

  predicate IsPage(e: nat) {
    e / 128 % 2 == 1
  }

  // bits 51:12
  function TableBase(e: nat): nat {
    e / 4096 % 0x100_0000_0000 * 4096
  }

  function Index(va: nat, shift: nat): nat
    requires shift > 0
  {
    va / shift % 512
  }

  // The physical address va translates to, or None for a page fault.
  function Walk(ram: seq<U8>, cr3: nat, va: nat): Option<nat> {
    var pml4e := EntryAt(ram, TableBase(cr3) + 8 * Index(va, 512 * GIB));
    if !Present(pml4e) then None
    else
      var pdpte := EntryAt(ram, TableBase(pml4e) + 8 * Index(va, GIB));
      if !Present(pdpte) then None
      else if IsPage(pdpte) then Some(pdpte / GIB % 0x40_0000 * GIB + va % GIB)
      else
        var pde := EntryAt(ram, TableBase(pdpte) + 8 * Index(va, SIZE_2M));
        if !Present(pde) then None
        else if IsPage(pde) then Some(pde / SIZE_2M % 0x8000_0000 * SIZE_2M + va % SIZE_2M)
        else
          var pte := EntryAt(ram, TableBase(pde) + 8 * Index(va, 4096));
          if !Present(pte) then None else Some(TableBase(pte) + va % 4096)
  }

  /* What build_identity_page_tables leaves in RAM. */

  // `PDPT | 0x3` and so on: the flag bits are free, so the OR is a sum.
  function Pml4Entry(k: nat): nat {
    if k == 0 then PDPT + 3 else 0
  }

  function PdptEntry(k: nat): nat {
    if k == 0 then PD0 + 3 else if k == 3 then PD3 + 3 else 0
  }

  // (i << 21) | 0x83
  function Pd0Entry(k: nat): nat {
    k * SIZE_2M + 0x83
  }

  // (3 << 30) | (i << 21) | 0x83
  function Pd3Entry(k: nat): nat {
    3 * GIB + k * SIZE_2M + 0x83
  }

  ghost predicate TableHolds(ram: seq<U8>, at: nat, e: nat -> nat) {
    at + 4096 <= |ram| && forall k :: 0 <= k < 512 ==> EntryAt(ram, at + 8 * k) == e(k)
  }

  lemma TableEntry(ram: seq<U8>, at: nat, e: nat -> nat, k: nat)
    requires TableHolds(ram, at, e) && k < 512
    ensures EntryAt(ram, at + 8 * k) == e(k)
  {
    assert e(k) == e(k);
  }

  ghost predicate IdentityTables(ram: seq<U8>) {
    && TableHolds(ram, PML4, Pml4Entry)
    && TableHolds(ram, PDPT, PdptEntry)
    && TableHolds(ram, PD0, Pd0Entry)
    && TableHolds(ram, PD3, Pd3Entry)
  }

  lemma TopEntries()
    ensures TableBase(PML4) == PML4
    ensures Present(Pml4Entry(0)) && TableBase(Pml4Entry(0)) == PDPT
    ensures Present(PdptEntry(0)) && !IsPage(PdptEntry(0)) && TableBase(PdptEntry(0)) == PD0
    ensures Present(PdptEntry(3)) && !IsPage(PdptEntry(3)) && TableBase(PdptEntry(3)) == PD3
  {
  }

  lemma LeafEntries(k: nat)
    requires k < 512
    ensures var e := Pd0Entry(k); Present(e) && IsPage(e) && e / SIZE_2M % 0x8000_0000 == k
    ensures var e := Pd3Entry(k); Present(e) && IsPage(e) && e / SIZE_2M % 0x8000_0000 == 1536 + k
  {
    LeafEntry(k);
    LeafEntry(1536 + k);
    assert Pd3Entry(k) == (1536 + k) * SIZE_2M + 0x83;
  }

  lemma LeafEntry(page: nat)
    requires page < 2048
    ensures var e := page * SIZE_2M + 0x83; Present(e) && IsPage(e) && e / SIZE_2M % 0x8000_0000 == page
  {
    var e := page * SIZE_2M + 0x83;
    assert e == 2 * (page * 0x10_0000 + 65) + 1;
    OddIsPresent(page * 0x10_0000 + 65);
    assert e == 128 * (2 * (page * 0x2000) + 1) + 3;
    BitSeven(page * 0x2000);
    FrameNumber(page);
  }

  lemma OddIsPresent(x: nat)
    ensures Present(2 * x + 1)
  {
  }

  lemma BitSeven(x: nat)
    ensures IsPage(128 * (2 * x + 1) + 3)
  {
    assert (128 * (2 * x + 1) + 3) / 128 == 2 * x + 1;
  }

  lemma FrameNumber(page: nat)
    requires page < 2048
    ensures (page * SIZE_2M + 0x83) / SIZE_2M % 0x8000_0000 == page
  {
    assert (page * SIZE_2M + 0x83) / SIZE_2M == page;
  }

  lemma AddressParts(va: nat)
    requires va < 512 * 512 * GIB
    ensures Index(va, 512 * GIB) == 0 <==> va < 512 * GIB
    ensures va < 512 * GIB ==> Index(va, GIB) == va / GIB
    ensures va == va / GIB * GIB + Index(va, SIZE_2M) * SIZE_2M + va % SIZE_2M
  {
    assert va / SIZE_2M == va / GIB * 512 + Index(va, SIZE_2M);
  }

  // The last step of the walk: a present 2 MiB page.
  lemma WalkToPage(ram: seq<U8>, va: nat, directory: nat, page: nat)
    requires Index(va, 512 * GIB) == 0 && EntryAt(ram, PML4) == PDPT + 3
    requires EntryAt(ram, PDPT + 8 * Index(va, GIB)) == directory + 3
    requires directory == PD0 || directory == PD3
    requires var pde := EntryAt(ram, directory + 8 * Index(va, SIZE_2M));
             Present(pde) && IsPage(pde) && pde / SIZE_2M % 0x8000_0000 == page
    ensures Walk(ram, PML4, va) == Some(page * SIZE_2M + va % SIZE_2M)
  {
    TopEntries();
  }

  // Over all 48-bit addresses the walk succeeds exactly in [0, 1 GiB) and [3 GiB, 4 GiB), and
  // there it is the identity.
  lemma WalkIsIdentity(ram: seq<U8>, va: nat)
    requires IdentityTables(ram) && va < 512 * 512 * GIB
    ensures Walk(ram, PML4, va) == if va < GIB || 3 * GIB <= va < 4 * GIB then Some(va) else None
  {
    TopEntries();
    AddressParts(va);
    var i4, i3, i2 := Index(va, 512 * GIB), Index(va, GIB), Index(va, SIZE_2M);
    TableEntry(ram, PML4, Pml4Entry, i4);
    if i4 == 0 {
      TableEntry(ram, PDPT, PdptEntry, i3);
      LeafEntries(i2);
      TableEntry(ram, PD0, Pd0Entry, i2);
      TableEntry(ram, PD3, Pd3Entry, i2);
      if i3 == 0 {
        WalkToPage(ram, va, PD0, i2);
      } else if i3 == 3 {
        WalkToPage(ram, va, PD3, 1536 + i2);
      }
    }
  }

  // Present, writable, for the supervisor only, and executable (section 4.5 of Intel SDM Vol. 3A).
  predicate SupervisorWritable(e: nat) {
    e % 2 == 1 && e / 2 % 2 == 1 && e / 4 % 2 == 0 && e < 0x8000_0000_0000_0000
  }

  lemma LeafAccess(page: nat)
    requires page < 2048
    ensures SupervisorWritable(page * SIZE_2M + 0x83)
  {
    assert page * SIZE_2M + 0x83 == 8 * (page * 0x4_0000 + 16) + 3;
    LowThree(page * 0x4_0000 + 16);
  }

  lemma LowThree(x: nat)
    ensures var e := 8 * x + 3; e % 2 == 1 && e / 2 % 2 == 1 && e / 4 % 2 == 0
  {
    assert (8 * x + 3) / 2 == 4 * x + 1 && (8 * x + 3) / 4 == 2 * x;
  }

  // Every entry of the four tables is not present or grants the kernel all access.
  lemma AccessIsFull(ram: seq<U8>, table: nat, k: nat)
    requires IdentityTables(ram) && k < 512 && table in [0x8000, 0x9000, 0xA000, 0xD000]
    ensures var e := EntryAt(ram, table + 8 * k); Present(e) ==> SupervisorWritable(e)
  {
    TableEntry(ram, PML4, Pml4Entry, k);
    TableEntry(ram, PDPT, PdptEntry, k);
    TableEntry(ram, PD0, Pd0Entry, k);
    TableEntry(ram, PD3, Pd3Entry, k);
    LeafAccess(k);
    LeafAccess(1536 + k);
    assert Pd3Entry(k) == (1536 + k) * SIZE_2M + 0x83;
  }

  /* Building. */

  // A 4 KiB page whose first n entries are given by e and whose others are zero.
  ghost predicate PageHolds(page: seq<U8>, n: nat, e: nat -> nat) {
    && |page| == 4096
    && forall k :: 0 <= k < 512 ==> EntryAt(page, 8 * k) == if k < n then e(k) else 0
  }

  lemma ZeroEntry(s: seq<U8>)
    requires forall i :: 0 <= i < |s| ==> s[i] == 0
    ensures LittleEndian.Decode(s) == 0
  {
  }

  method NewPage() returns (page: array<U8>)
    ensures fresh(page) && page.Length == 4096
    ensures forall e :: PageHolds(page[..], 0, e)
  {
    page := new U8[4096](_ => 0);
    forall k | 0 <= k < 512 ensures EntryAt(page[..], 8 * k) == 0 {
      ZeroEntry(page[..][8 * k..8 * k + 8]);
    }
  }

  // `page[8k..8k + 8].copy_from_slice(&v.to_le_bytes())`
  method PutEntry(page: array<U8>, k: nat, v: U64)
    requires page.Length == 4096 && k < 512
    modifies page
    ensures forall j :: 0 <= j < 512 ==>
              EntryAt(page[..], 8 * j) == if j == k then v else EntryAt(old(page[..]), 8 * j)
  {
    var bytes := LittleEndian.Encode(v, 8);
    forall i | 0 <= i < 8 {
      page[8 * k + i] := bytes[i];
    }
    forall j | 0 <= j < 512
      ensures EntryAt(page[..], 8 * j) == if j == k then v else EntryAt(old(page[..]), 8 * j)
    {
      if j == k {
        assert page[..][8 * k..8 * k + 8] == bytes;
        LittleEndian.WidthOf(v);
        LittleEndian.DecodeEncode(v, 8);
      } else {
        assert page[..][8 * j..8 * j + 8] == old(page[..])[8 * j..8 * j + 8];
      }
    }
  }

  // The loops over pd0 and pd3: 512 consecutive 2 MiB pages from `base`.
  method LeafPage(base: U64, ghost e: nat -> nat) returns (page: array<U8>)
    requires base + 512 * SIZE_2M <= 4 * GIB
    requires forall k :: 0 <= k < 512 ==> e(k) == base + k * SIZE_2M + 0x83
    ensures fresh(page) && PageHolds(page[..], 512, e)
  {
    page := NewPage();
    assert PageHolds(page[..], 0, e);
    for i := 0 to 512
      invariant PageHolds(page[..], i, e)
    {
      PutEntry(page, i, base + i * SIZE_2M + 0x83);
    }
  }

  // A table page written to RAM is a table there; tables elsewhere stay what they are.
  lemma PageWritten(ram: seq<U8>, at: nat, page: seq<U8>, e: nat -> nat)
    requires at + 4096 <= |ram| && PageHolds(page, 512, e)
    ensures TableHolds(Patched(ram, at, page), at, e)
  {
    forall k | 0 <= k < 512 ensures EntryAt(Patched(ram, at, page), at + 8 * k) == e(k) {
      assert EntryAt(page, 8 * k) == e(k);
      ReadOverWrite(ram, at, page, at + 8 * k, 8);
    }
  }

  lemma TableKept(ram: seq<U8>, at: nat, data: seq<U8>, table: nat, e: nat -> nat)
    requires at + |data| <= |ram| && TableHolds(ram, table, e)
    requires table + 4096 <= at || at + |data| <= table
    ensures TableHolds(Patched(ram, at, data), table, e)
  {
    forall k | 0 <= k < 512 ensures EntryAt(Patched(ram, at, data), table + 8 * k) == e(k) {
      TableEntry(ram, table, e, k);
      ReadOverWrite(ram, at, data, table + 8 * k, 8);
    }
  }

  method StorePage(mem: Memory, at: U64, page: array<U8>, ghost e: nat -> nat) returns (ok: bool)
    requires PageHolds(page[..], 512, e) && page != mem.ram
    modifies mem.ram
    ensures ok <==> at + 4096 <= mem.ram.Length
    ensures ok ==> mem.ram[..] == Patched(old(mem.ram[..]), at, old(page[..])) && TableHolds(mem.ram[..], at, e)
  {
    ghost var before := mem.ram[..];
    ok := mem.WriteAt(at, page[..]);
    if ok {
      PageWritten(before, at, old(page[..]), e);
    }
  }

  method TopPage(ghost e: nat -> nat, k0: nat, v0: U64, k3: nat, v3: U64) returns (page: array<U8>)
    requires k0 < 512 && k3 < 512
    requires forall k :: 0 <= k < 512 ==> e(k) == if k == k3 then v3 else if k == k0 then v0 else 0
    ensures fresh(page) && PageHolds(page[..], 512, e)
  {
    page := NewPage();
    assert PageHolds(page[..], 0, e);
    PutEntry(page, k0, v0);
    PutEntry(page, k3, v3);
  }

  // build_identity_page_tables. It fails exactly when RAM ends below 0xE000.
  method BuildIdentityPageTables(mem: Memory) returns (cr3: Option<U64>)
    modifies mem.ram
    ensures cr3.Some? <==> mem.ram.Length >= PD3 + 4096
    ensures cr3.Some? ==> cr3 == Some(PML4) && IdentityTables(mem.ram[..])
  {
    var pml4 := TopPage(Pml4Entry, 0, PDPT + 3, 0, PDPT + 3);
    var ok := StorePage(mem, PML4, pml4, Pml4Entry);
    if !ok { return None; }
    var pdpt := TopPage(PdptEntry, 0, PD0 + 3, 3, PD3 + 3);
    ghost var ram, page := mem.ram[..], pdpt[..];
    ok := StorePage(mem, PDPT, pdpt, PdptEntry);
    if !ok { return None; }
    TableKept(ram, PDPT, page, PML4, Pml4Entry);
    var pd0 := LeafPage(0, Pd0Entry);
    ram, page := mem.ram[..], pd0[..];
    ok := StorePage(mem, PD0, pd0, Pd0Entry);
    if !ok { return None; }
    TableKept(ram, PD0, page, PML4, Pml4Entry);
    TableKept(ram, PD0, page, PDPT, PdptEntry);
    var pd3 := LeafPage(3 * GIB, Pd3Entry);
    ram, page := mem.ram[..], pd3[..];
    ok := StorePage(mem, PD3, pd3, Pd3Entry);
    if !ok { return None; }
    TableKept(ram, PD3, page, PML4, Pml4Entry);
    TableKept(ram, PD3, page, PDPT, PdptEntry);
    TableKept(ram, PD3, page, PD0, Pd0Entry);
    cr3 := Some(PML4);
  }

  /* Everything else boot writes. */

  // A write that touches none of the four tables.
  predicate BesideTables(at: nat, length: nat) {
    at + length <= PML4 || (GDT <= at && at + length <= PD3) || PD3 + 4096 <= at
  }

  lemma WriteBesideTables(ram: seq<U8>, at: nat, data: seq<U8>)
    requires IdentityTables(ram) && at + |data| <= |ram| && BesideTables(at, |data|)
    ensures IdentityTables(Patched(ram, at, data))
  {
    TableKept(ram, at, data, PML4, Pml4Entry);
    TableKept(ram, at, data, PDPT, PdptEntry);
    TableKept(ram, at, data, PD0, Pd0Entry);
    TableKept(ram, at, data, PD3, Pd3Entry);
  }

  method Store(mem: Memory, at: U64, data: seq<U8>) returns (ok: bool)
    requires IdentityTables(mem.ram[..]) && BesideTables(at, |data|)
    modifies mem.ram
    ensures IdentityTables(mem.ram[..])
    ensures ok <==> at + |data| <= mem.ram.Length
    ensures mem.ram[..] == if ok then Patched(old(mem.ram[..]), at, data) else old(mem.ram[..])
  {
    ghost var before := mem.ram[..];
    ok := mem.WriteAt(at, data);
    if ok {
      WriteBesideTables(before, at, data);
    }
  }

  // RAM with an image loaded at `at`, where there is one and it fits.
  function Loaded(ram: seq<U8>, at: nat, image: Option<seq<U8>>): seq<U8> {
    if image.Some? && at + |image.value| <= |ram| then Patched(ram, at, image.value) else ram
  }

  // prepare_linux: kernel, initrd and zero-terminated command line, of any contents and length.
  method PrepareLinux(mem: Memory, kernel: Option<seq<U8>>, initrd: Option<seq<U8>>, cmdline: seq<U8>)
    returns (ok: bool)
    requires IdentityTables(mem.ram[..])
    modifies mem.ram
    ensures IdentityTables(mem.ram[..])
    ensures ok <==>
              && (kernel.Some? ==> |kernel.value| + KERNEL_LOAD_ADDR <= mem.ram.Length)
              && (initrd.Some? ==> |initrd.value| + INITRD_ADDR <= mem.ram.Length)
              && CMDLINE_GPA + |cmdline| + 1 <= mem.ram.Length
    ensures ok ==>
              var images := Loaded(Loaded(old(mem.ram[..]), KERNEL_LOAD_ADDR, kernel), INITRD_ADDR, initrd);
              mem.ram[..] == Loaded(images, CMDLINE_GPA, Some(cmdline + [0]))
  {
    if kernel.Some? {
      if |kernel.value| + KERNEL_LOAD_ADDR > mem.ram.Length {
        return false;
      }
      ok := Store(mem, KERNEL_LOAD_ADDR, kernel.value);
      if !ok { return; }
    }
    if initrd.Some? {
      ok := Store(mem, INITRD_ADDR, initrd.value);
      if !ok { return; }
    }
    ok := Store(mem, CMDLINE_GPA, cmdline + [0]);
  }

  // prepare_windows: firmware that does not fit is skipped.
  method PrepareWindows(mem: Memory, firmware: Option<seq<U8>>)
    requires IdentityTables(mem.ram[..])
    modifies mem.ram
    ensures IdentityTables(mem.ram[..])
    ensures mem.ram[..] == if firmware.Some? && FIRMWARE_GPA + |firmware.value| < mem.ram.Length
                           then Patched(old(mem.ram[..]), FIRMWARE_GPA, firmware.value) else old(mem.ram[..])
  {
    if firmware.Some? && FIRMWARE_GPA + |firmware.value| < mem.ram.Length {
      var _ := Store(mem, FIRMWARE_GPA, firmware.value);
    }
  }

  // limit 103, base, available 64-bit TSS, present: the low half of the TSS descriptor
  const TSS_LOW: U64 := 103 + TSS * 0x1_0000 + 9 * 0x100_0000_0000 + 0x8000_0000_0000
  const CODE64: U64 := 0x00af_9b00_0000_ffff
  const DATA32: U64 := 0x00cf_9300_0000_ffff

  function GdtBytes(): (s: seq<U8>)
    ensures |s| == 40
  {
    LittleEndian.Encode(0, 8) + LittleEndian.Encode(CODE64, 8) + LittleEndian.Encode(DATA32, 8)
    + LittleEndian.Encode(TSS_LOW, 8) + LittleEndian.Encode(0, 8)
  }

  // A segment descriptor as section 3.4.5 of Intel SDM Vol. 3A lays it out.
  datatype Descriptor = Descriptor(
    base: nat, limit: nat, kind: nat, codeOrData: bool, dpl: nat, present: bool,
    long: bool, big: bool, granular: bool)

  function DescriptorOf(e: nat): Descriptor {
    Descriptor(
      e / 0x1_0000 % 0x100_0000 + e / 0x100_0000_0000_0000 % 0x100 * 0x100_0000,
      e % 0x1_0000 + e / 0x1_0000_0000_0000 % 0x10 * 0x1_0000,
      e / 0x100_0000_0000 % 16,
      e / 0x1000_0000_0000 % 2 == 1,
      e / 0x2000_0000_0000 % 4,
      e / 0x8000_0000_0000 % 2 == 1,
      e / 0x20_0000_0000_0000 % 2 == 1,
      e / 0x40_0000_0000_0000 % 2 == 1,
      e / 0x80_0000_0000_0000 % 2 == 1)
  }

  // The descriptor of a selector in a table at 0xB000.
  function Selected(ram: seq<U8>, selector: nat): Descriptor {
    DescriptorOf(EntryAt(ram, 0xB000 + selector))
  }

  // What a processor reads there: at 0x08 present ring-0 64-bit code, executable, readable and
  // accessed; at 0x10 present ring-0 writable accessed flat data; at 0x18 a present available
  // 64-bit TSS at 0xC000 with limit 103.
  ghost predicate BootDescriptors(ram: seq<U8>) {
    && Selected(ram, 0x08) == Descriptor(0, 0xF_FFFF, 11, true, 0, true, true, false, true)
    && Selected(ram, 0x10) == Descriptor(0, 0xF_FFFF, 3, true, 0, true, false, true, true)
    && Selected(ram, 0x18) == Descriptor(0xC000, 103, 9, false, 0, true, false, false, false)
    && EntryAt(ram, 0xB000 + 0x20) == 0 && EntryAt(ram, 0xB000) == 0
  }

  lemma DescriptorValues()
    ensures DescriptorOf(CODE64) == Descriptor(0, 0xF_FFFF, 11, true, 0, true, true, false, true)
    ensures DescriptorOf(DATA32) == Descriptor(0, 0xF_FFFF, 3, true, 0, true, false, true, true)
    ensures DescriptorOf(TSS_LOW) == Descriptor(0xC000, 103, 9, false, 0, true, false, false, false)
  {
  }

  lemma EntryHolds(ram: seq<U8>, at: nat, v: U64)
    requires at + 8 <= |ram| && ram[at..at + 8] == LittleEndian.Encode(v, 8)
    ensures EntryAt(ram, at) == v
  {
    LittleEndian.WidthOf(v);
    LittleEndian.DecodeEncode(v, 8);
  }

  lemma FiveEntries(ram: seq<U8>, at: nat, a: seq<U8>, b: seq<U8>, c: seq<U8>, d: seq<U8>, e: seq<U8>)
    requires |a| == 8 && |b| == 8 && |c| == 8 && |d| == 8 && |e| == 8
    requires at + 40 <= |ram| && ram[at..at + 40] == a + b + c + d + e
    ensures ram[at..at + 8] == a && ram[at + 8..at + 16] == b && ram[at + 16..at + 24] == c
    ensures ram[at + 24..at + 32] == d && ram[at + 32..at + 40] == e
  {
    var t := ram[at..at + 40];
    assert t[0..8] == a && t[8..16] == b && t[16..24] == c && t[24..32] == d && t[32..40] == e;
    forall i, j | 0 <= i <= j <= 40 ensures t[i..j] == ram[at + i..at + j] {
      SliceOfSlice(ram, at, i, j);
    }
  }

  lemma SliceOfSlice(ram: seq<U8>, at: nat, i: nat, j: nat)
    requires i <= j <= 40 && at + 40 <= |ram|
    ensures ram[at..at + 40][i..j] == ram[at + i..at + j]
  {
    var inner, direct := ram[at..at + 40][i..j], ram[at + i..at + j];
    assert |inner| == |direct| && forall k :: 0 <= k < |inner| ==> inner[k] == direct[k];
  }

  lemma GdtDecodes(ram: seq<U8>)
    requires |ram| >= 0xB028 && ram[0xB000..0xB028] == GdtBytes()
    ensures BootDescriptors(ram)
  {
    FiveEntries(ram, 0xB000, LittleEndian.Encode(0, 8), LittleEndian.Encode(CODE64, 8),
                LittleEndian.Encode(DATA32, 8), LittleEndian.Encode(TSS_LOW, 8), LittleEndian.Encode(0, 8));
    EntryHolds(ram, 0xB000, 0);
    EntryHolds(ram, 0xB008, CODE64);
    EntryHolds(ram, 0xB010, DATA32);
    EntryHolds(ram, 0xB018, TSS_LOW);
    EntryHolds(ram, 0xB020, 0);
    DescriptorValues();
  }

  function ZeroTss(): (s: seq<U8>)
    ensures |s| == 128 && forall i :: 0 <= i < 128 ==> s[i] == 0
  {
    seq(128, _ => 0)
  }

  ghost predicate ZeroAtTss(ram: seq<U8>) {
    |ram| >= 0xC080 && forall i :: 0xC000 <= i < 0xC080 ==> ram[i] == 0
  }

  // The two writes do not overlap.
  lemma TssThenGdt(ram: seq<U8>)
    requires |ram| >= PD3
    ensures var ram2 := Patched(Patched(ram, TSS, ZeroTss()), GDT, GdtBytes());
            ZeroAtTss(ram2) && BootDescriptors(ram2)
  {
    var ram1 := Patched(ram, TSS, ZeroTss());
    var ram2 := Patched(ram1, GDT, GdtBytes());
    ReadOverWrite(ram, TSS, ZeroTss(), TSS, 128);
    ReadOverWrite(ram1, GDT, GdtBytes(), TSS, 128);
    ReadOverWrite(ram1, GDT, GdtBytes(), GDT, 40);
    forall i | 0xC000 <= i < 0xC080 ensures ram2[i] == 0 {
      assert ram2[i] == ram2[TSS..TSS + 128][i - TSS];
    }
    GdtDecodes(ram2);
  }

  // The memory writes of setup_long_mode.
  method SetupLongMode(mem: Memory) returns (ok: bool)
    requires IdentityTables(mem.ram[..])
    modifies mem.ram
    ensures IdentityTables(mem.ram[..])
    ensures ok && ZeroAtTss(mem.ram[..]) && BootDescriptors(mem.ram[..])
  {
    TssThenGdt(mem.ram[..]);
    ok := Store(mem, TSS, ZeroTss());
    ok := Store(mem, GDT, GdtBytes());
  }

  // from_boot_config and run_until up to the first instruction. However much RAM there is and
  // whatever is loaded, a vCPU that gets to run sees the identity map.
  method BootLinux(length: nat, kernel: Option<seq<U8>>, initrd: Option<seq<U8>>, cmdline: seq<U8>)
    returns (mem: Memory, cr3: Option<U64>)
    ensures cr3.Some? <==>
              && length >= PD3 + 4096
              && (kernel.Some? ==> |kernel.value| + KERNEL_LOAD_ADDR <= length)
              && (initrd.Some? ==> |initrd.value| + INITRD_ADDR <= length)
              && CMDLINE_GPA + |cmdline| + 1 <= length
    ensures cr3.Some? ==> cr3 == Some(PML4) && IdentityTables(mem.ram[..])
    ensures cr3.Some? ==> ZeroAtTss(mem.ram[..]) && BootDescriptors(mem.ram[..])
    ensures cr3.Some? ==> forall va :: 0 <= va < 512 * 512 * GIB ==>
              Walk(mem.ram[..], cr3.value, va) == if va < GIB || 3 * GIB <= va < 4 * GIB then Some(va) else None
  {
    mem := new Memory(length);
    cr3 := BuildIdentityPageTables(mem);
    if cr3.None? {
      return;
    }
    var ok := PrepareLinux(mem, kernel, initrd, cmdline);
    if !ok {
      return mem, None;
    }
    ok := SetupLongMode(mem);
    forall va | 0 <= va < 512 * 512 * GIB
      ensures Walk(mem.ram[..], cr3.value, va) == if va < GIB || 3 * GIB <= va < 4 * GIB then Some(va) else None
    {
      WalkIsIdentity(mem.ram[..], va);
    }
  }
}
