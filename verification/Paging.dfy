/** The page-frame allocator: frame bitmap, free counter and page directory. */
module Paging {
  import opened Bytes

  const PAGE_FRAME_SIZE := 0x40_0000
  const PAGE_FRAME_MAX_COUNT := 32
  const PAGE_ENTRY_COUNT := 1024
  const KERNEL_PAGE := 0x300

  type Address10 = x: int | 0 <= x < 0x400

  datatype Flag = Flag(
    present: bool, read_write: bool, user_supervisor: bool, write_through: bool,
    cache_disabled: bool, accessed: bool, dirty: bool, page_size: bool)

  const NO_FLAGS := Flag(false, false, false, false, false, false, false, false)

  /** `other` stands for the bits between the flags and the address, which no
      operation writes. */
  datatype Entry = Entry(flag: Flag, other: int, lower_address: Address10)

  type FrameMap = m: seq<bool> | |m| == PAGE_FRAME_MAX_COUNT witness seq(PAGE_FRAME_MAX_COUNT, _ => false)
  type Directory = d: seq<Entry> | |d| == PAGE_ENTRY_COUNT
    witness seq(PAGE_ENTRY_COUNT, _ => Entry(NO_FLAGS, 0, 0))

  datatype State = State(frames: FrameMap, free: word, dir: Directory)

  // ---------- Addresses ----------

  /** `(virtual_addr >> 22) & 0x3FF` */
  function PageIndex(virtual_addr: word): Address10 {
    virtual_addr / 0x40_0000 % 0x400
  }

  /** The frame number survives the trip through its physical address. */
  lemma FrameAddress(frame: nat)
    requires frame < PAGE_FRAME_MAX_COUNT
    ensures frame * PAGE_FRAME_SIZE < 0x1_0000_0000 && PageIndex(frame * PAGE_FRAME_SIZE) == frame
  {
  }

  // ---------- What the operations compute ----------

  function FirstFree(m: seq<bool>, from: nat): (i: nat)
    requires from <= |m|
    ensures from <= i <= |m|
    ensures i < |m| ==> !m[i]
    ensures forall j :: from <= j < i ==> m[j]
    decreases |m| - from
  {
    if from == |m| || !m[from] then from else FirstFree(m, from + 1)
  }

  /** Flags of a new user page; `noise` supplies the bits the code leaves as it
      finds them on the stack. */
  function UserFlags(noise: Flag): Flag {
    noise.(present := true, read_write := true, user_supervisor := true, page_size := true)
  }

  /** A writable 4 MiB page that user programs may access. */
  predicate IsUserPage(f: Flag) {
    f.present && f.read_write && f.user_supervisor && f.page_size
  }

  function CanAllocate(s: State): bool {
    FirstFree(s.frames, 0) < PAGE_FRAME_MAX_COUNT
  }

  function Allocated(s: State, virtual_addr: word, noise: Flag): State
    requires CanAllocate(s)
  {
    var f, i := FirstFree(s.frames, 0), PageIndex(virtual_addr);
    State(s.frames[f := true], (s.free - 1) % 0x1_0000_0000,
          s.dir[i := s.dir[i].(flag := UserFlags(noise), lower_address := f)])
  }

  function CanFree(s: State, virtual_addr: word): bool {
    s.dir[PageIndex(virtual_addr)].flag.present
  }

  function Freed(s: State, virtual_addr: word): State
    requires CanFree(s, virtual_addr) && s.dir[PageIndex(virtual_addr)].lower_address < PAGE_FRAME_MAX_COUNT
  {
    var i := PageIndex(virtual_addr);
    State(s.frames[s.dir[i].lower_address := false], (s.free + 1) % 0x1_0000_0000,
          s.dir[i := s.dir[i].(flag := NO_FLAGS, lower_address := 0)])
  }

  ghost function FreeFrames(m: FrameMap): set<nat> {
    set i | 0 <= i < PAGE_FRAME_MAX_COUNT && !m[i]
  }

  /** A set has `n` elements to choose exactly when its size is at least `n`. */
  lemma {:induction false} EnoughFrames(s: set<nat>, n: nat)
    ensures n <= |s| <==> exists wanted: set<nat> :: wanted <= s && |wanted| == n
    decreases |s|
  {
    if n < |s| {
      var f :| f in s;
      EnoughFrames(s - {f}, n);
    } else if n == |s| {
      assert s <= s;
    } else {
      forall wanted: set<nat> | wanted <= s
        ensures |wanted| <= |s|
      {
        assert s == wanted + (s - wanted);
      }
    }
  }

  // ---------- The allocator ----------

  class PageManager {
    const page_frame_map: array<bool>
    var free_page_frame_count: word

    predicate Valid() {
      page_frame_map.Length == PAGE_FRAME_MAX_COUNT
    }

    /** Frame 0 holds the kernel. */
    constructor ()
      ensures Valid() && fresh(page_frame_map)
      ensures page_frame_map[..] == Boot().frames && free_page_frame_count == Boot().free
    {
      page_frame_map := new bool[PAGE_FRAME_MAX_COUNT](i => i == 0);
      free_page_frame_count := PAGE_FRAME_MAX_COUNT - 1;
    }

    ghost function View(table: array<Entry>): State
      requires Valid() && table.Length == PAGE_ENTRY_COUNT
      reads this, page_frame_map, table
    {
      State(page_frame_map[..], free_page_frame_count, table[..])
    }

    method UpdatePageDirectoryEntry(table: array<Entry>, physical_addr: word, virtual_addr: word, flag: Flag)
      requires table.Length == PAGE_ENTRY_COUNT
      modifies table
      ensures var i := PageIndex(virtual_addr);
              table[..] == old(table[..])[i := old(table[i]).(flag := flag, lower_address := PageIndex(physical_addr))]
    {
      var page_index := PageIndex(virtual_addr);
      table[page_index] := table[page_index].(flag := flag);
      table[page_index] := table[page_index].(lower_address := PageIndex(physical_addr));
    }

    /** The amount is a number of frames, not of bytes. When the counter is right,
        the answer is about the bitmap. */
    method AllocateCheck(amount: word) returns (available: bool)
      requires Valid() && free_page_frame_count == |FreeFrames(page_frame_map[..])|
      ensures available <==> exists wanted: set<nat> :: wanted <= FreeFrames(page_frame_map[..]) && |wanted| == amount
    {
      EnoughFrames(FreeFrames(page_frame_map[..]), amount);
      available := amount <= free_page_frame_count;
    }

    method AllocateUserPageFrame(table: array<Entry>, virtual_addr: word) returns (ok: bool)
      requires Valid() && table.Length == PAGE_ENTRY_COUNT
      modifies this, page_frame_map, table
      ensures ok <==> CanAllocate(old(View(table)))
      ensures !ok ==> View(table) == old(View(table))
      ensures ok ==> exists noise :: View(table) == Allocated(old(View(table)), virtual_addr, noise)
      ensures ok ==> IsUserPage(table[PageIndex(virtual_addr)].flag)
    {
      var physical_idx := 0;
      while physical_idx < PAGE_FRAME_MAX_COUNT
        invariant 0 <= physical_idx <= PAGE_FRAME_MAX_COUNT
        invariant FirstFree(page_frame_map[..], physical_idx) == FirstFree(page_frame_map[..], 0)
        invariant View(table) == old(View(table))
      {
        if !page_frame_map[physical_idx] {
          page_frame_map[physical_idx] := true;
          free_page_frame_count := (free_page_frame_count - 1) % 0x1_0000_0000;
          break;
        }
        physical_idx := physical_idx + 1;
      }
      if physical_idx >= PAGE_FRAME_MAX_COUNT {
        return false;
      }
      var noise: Flag := *;
      var flag := noise.(present := true);
      flag := flag.(read_write := true);
      flag := flag.(user_supervisor := true);
      flag := flag.(page_size := true);
      FrameAddress(physical_idx);
      UpdatePageDirectoryEntry(table, physical_idx * PAGE_FRAME_SIZE, virtual_addr, flag);
      ok := true;
      assert View(table) == Allocated(old(View(table)), virtual_addr, noise);
    }

    method FreeUserPageFrame(table: array<Entry>, virtual_addr: word) returns (ok: bool)
      requires Valid() && table.Length == PAGE_ENTRY_COUNT
      requires CanFree(View(table), virtual_addr) ==> table[PageIndex(virtual_addr)].lower_address < PAGE_FRAME_MAX_COUNT
      modifies this, page_frame_map, table
      ensures ok <==> CanFree(old(View(table)), virtual_addr)
      ensures !ok ==> View(table) == old(View(table))
      ensures ok ==> View(table) == Freed(old(View(table)), virtual_addr)
    {
      var page_idx := PageIndex(virtual_addr);
      if !table[page_idx].flag.present {
        return false;
      }
      var physical_idx := table[page_idx].lower_address;
      page_frame_map[physical_idx] := false;
      free_page_frame_count := (free_page_frame_count + 1) % 0x1_0000_0000;
      UpdatePageDirectoryEntry(table, 0, virtual_addr, NO_FLAGS);
      ok := true;
    }
  }

  // ---------- The state after boot ----------

  /** The loader has cleared entry 0; only the kernel's entry is present. */
  function Boot(): State {
    State(seq(PAGE_FRAME_MAX_COUNT, i => i == 0), PAGE_FRAME_MAX_COUNT - 1,
          seq(PAGE_ENTRY_COUNT, _ => Entry(NO_FLAGS, 0, 0))
            [KERNEL_PAGE := Entry(NO_FLAGS.(present := true, read_write := true, page_size := true), 0, 0)])
  }

  // ---------- Agreement of bitmap, counter and directory ----------

  ghost function Mapped(d: Directory): set<nat> {
    set i | 0 <= i < PAGE_ENTRY_COUNT && d[i].flag.present
  }

  /** The counter counts the unmarked frames, every present entry names a marked
      frame, and no two present entries name the same one. */
  ghost predicate Agree(s: State) {
    s.free == |FreeFrames(s.frames)| &&
    (forall i :: 0 <= i < PAGE_ENTRY_COUNT && s.dir[i].flag.present ==>
      s.dir[i].lower_address < PAGE_FRAME_MAX_COUNT && s.frames[s.dir[i].lower_address]) &&
    (forall i, j :: 0 <= i < j < PAGE_ENTRY_COUNT && s.dir[i].flag.present && s.dir[j].flag.present ==>
      s.dir[i].lower_address != s.dir[j].lower_address)
  }

  /** Every marked frame is mapped. */
  ghost predicate NoLostFrame(s: State) {
    forall f :: 0 <= f < PAGE_FRAME_MAX_COUNT && s.frames[f] ==>
      exists i :: 0 <= i < PAGE_ENTRY_COUNT && s.dir[i].flag.present && s.dir[i].lower_address == f
  }

  ghost predicate Accounted(s: State) {
    NoLostFrame(s) && s.free + |Mapped(s.dir)| == PAGE_FRAME_MAX_COUNT
  }

  /** The frames that are marked although no page maps them. */
  ghost function LostFrames(s: State): set<nat> {
    set f | 0 <= f < PAGE_FRAME_MAX_COUNT && s.frames[f] && f !in Named(s.dir, Mapped(s.dir))
  }

  /** The frames that the entries `m` name. */
  ghost function Named(d: Directory, m: set<nat>): set<nat>
    requires forall i :: i in m ==> i < PAGE_ENTRY_COUNT
  {
    set i | i in m :: d[i].lower_address as nat
  }

  lemma {:induction false} NamedSize(d: Directory, m: set<nat>)
    requires forall i :: i in m ==> i < PAGE_ENTRY_COUNT
    requires forall i, j :: i in m && j in m && i < j ==> d[i].lower_address != d[j].lower_address
    ensures |Named(d, m)| == |m|
    decreases |m|
  {
    if m == {} {
      assert Named(d, m) == {};
    } else {
      var i :| i in m;
      NamedSize(d, m - {i});
      NamedSplit(d, m, i);
    }
  }

  lemma NamedSplit(d: Directory, m: set<nat>, i: nat)
    requires i in m && forall j :: j in m ==> j < PAGE_ENTRY_COUNT
    requires forall j :: j in m - {i} ==> d[j].lower_address != d[i].lower_address
    ensures |Named(d, m)| == |Named(d, m - {i})| + 1
  {
    assert m == m - {i} + {i};
    assert Named(d, m) == Named(d, m - {i}) + {d[i].lower_address as nat};
  }

  /** Every frame is free, mapped or lost. */
  lemma FramesAddUp(s: State)
    requires Agree(s)
    ensures s.free + |Mapped(s.dir)| + |LostFrames(s)| == PAGE_FRAME_MAX_COUNT
  {
    hide Range, Named, LostFrames, FreeFrames;
    FramesPartition(s);
    NamedSize(s.dir, Mapped(s.dir));
    PartitionSize(FreeFrames(s.frames), Named(s.dir, Mapped(s.dir)), LostFrames(s), PAGE_FRAME_MAX_COUNT);
  }

  lemma FramesPartition(s: State)
    requires Agree(s)
    ensures var named := Named(s.dir, Mapped(s.dir));
            FreeFrames(s.frames) + named + LostFrames(s) == Range(PAGE_FRAME_MAX_COUNT) &&
            FreeFrames(s.frames) !! named && FreeFrames(s.frames) + named !! LostFrames(s)
  {
    hide Range, Named, Agree;
    NamedAreMarked(s);
  }

  lemma NamedAreMarked(s: State)
    requires Agree(s)
    ensures forall f :: f in Named(s.dir, Mapped(s.dir)) ==> 0 <= f < PAGE_FRAME_MAX_COUNT && s.frames[f]
  {
  }

  lemma PartitionSize(a: set<nat>, b: set<nat>, c: set<nat>, n: nat)
    requires a !! b && a + b !! c && a + b + c == Range(n)
    ensures |a| + |b| + |c| == n
  {
    hide Range;
    assert |a + b| == |a| + |b|;
    assert |a + b + c| == |a + b| + |c|;
  }

  lemma BootAgrees()
    ensures Agree(Boot()) && Accounted(Boot())
  {
    hide Range;
    var s := Boot();
    assert s.dir[KERNEL_PAGE].flag.present;
    assert Mapped(s.dir) == {KERNEL_PAGE as nat};
    BootFrames();
  }

  lemma BootFrames()
    ensures |FreeFrames(Boot().frames)| == PAGE_FRAME_MAX_COUNT - 1
  {
    hide Range;
    assert FreeFrames(Boot().frames) == Range(PAGE_FRAME_MAX_COUNT) - {0};
  }

  lemma FreeFramesBound(m: FrameMap)
    ensures |FreeFrames(m)| <= PAGE_FRAME_MAX_COUNT
  {
    hide Range;
    var all := Range(PAGE_FRAME_MAX_COUNT);
    assert all == FreeFrames(m) + (all - FreeFrames(m));
  }

  /** Allocation succeeds exactly when the check for one frame passes, and takes
      the lowest unmarked frame. */
  lemma AllocateExact(s: State)
    requires Agree(s)
    ensures CanAllocate(s) <==> 1 <= s.free
    ensures CanAllocate(s) ==>
      var f := FirstFree(s.frames, 0);
      f in FreeFrames(s.frames) && forall g :: g in FreeFrames(s.frames) ==> f <= g
  {
    var f := FirstFree(s.frames, 0);
    if f < PAGE_FRAME_MAX_COUNT {
      assert f in FreeFrames(s.frames);
      assert |FreeFrames(s.frames)| > 0;
    } else {
      assert FreeFrames(s.frames) == {};
    }
  }

  /** Allocation keeps bitmap, counter and directory in agreement, whatever the
      entry held. */
  lemma AllocateKeeps(s: State, virtual_addr: word, noise: Flag)
    requires Agree(s) && CanAllocate(s)
    ensures Agree(Allocated(s, virtual_addr, noise))
    ensures Allocated(s, virtual_addr, noise).free == s.free - 1
  {
    var s', f := Allocated(s, virtual_addr, noise), FirstFree(s.frames, 0);
    FreeFramesBound(s.frames);
    assert f in FreeFrames(s.frames);
    assert FreeFrames(s'.frames) == FreeFrames(s.frames) - {f};
  }

  /** It keeps every frame accounted for exactly when the entry was not present:
      the frame of a page that is mapped over is lost. */
  lemma AllocateAccounts(s: State, virtual_addr: word, noise: Flag)
    requires Agree(s) && Accounted(s) && CanAllocate(s)
    ensures Accounted(Allocated(s, virtual_addr, noise)) <==> !CanFree(s, virtual_addr)
  {
    hide Agree, NoLostFrame, FreeFrames, Mapped;
    AllocateKeeps(s, virtual_addr, noise);
    AllocatedMapped(s, virtual_addr, noise);
    if !CanFree(s, virtual_addr) {
      AllocateLosesNone(s, virtual_addr, noise);
    }
  }

  /** Allocation maps one entry, whether or not it was mapped before. */
  lemma AllocatedMapped(s: State, virtual_addr: word, noise: Flag)
    requires CanAllocate(s)
    ensures |Mapped(Allocated(s, virtual_addr, noise).dir)| == |Mapped(s.dir)| + if CanFree(s, virtual_addr) then 0 else 1
  {
    var i: nat := PageIndex(virtual_addr);
    assert Mapped(Allocated(s, virtual_addr, noise).dir) == Mapped(s.dir) + {i};
    if CanFree(s, virtual_addr) {
      assert Mapped(s.dir) + {i} == Mapped(s.dir);
    }
  }

  lemma AllocateLosesNone(s: State, virtual_addr: word, noise: Flag)
    requires NoLostFrame(s) && CanAllocate(s) && !CanFree(s, virtual_addr)
    ensures NoLostFrame(Allocated(s, virtual_addr, noise))
  {
    var s', f, i := Allocated(s, virtual_addr, noise), FirstFree(s.frames, 0), PageIndex(virtual_addr);
    assert s'.dir[i].flag.present && s'.dir[i].lower_address == f;
    forall g | 0 <= g < PAGE_FRAME_MAX_COUNT && s'.frames[g] && g != f
      ensures exists j :: 0 <= j < PAGE_ENTRY_COUNT && s'.dir[j].flag.present && s'.dir[j].lower_address == g
    {
      var j :| 0 <= j < PAGE_ENTRY_COUNT && s.dir[j].flag.present && s.dir[j].lower_address == g;
      assert s'.dir[j] == s.dir[j];
    }
  }

  /** Freeing keeps all three in agreement and gives back one frame. */
  lemma FreeKeeps(s: State, virtual_addr: word)
    requires Agree(s) && CanFree(s, virtual_addr)
    ensures Agree(Freed(s, virtual_addr))
    ensures Freed(s, virtual_addr).free == s.free + 1
    ensures Accounted(s) ==> Accounted(Freed(s, virtual_addr))
  {
    hide NoLostFrame, Mapped, FreeFrames;
    FreedFrames(s, virtual_addr);
    FreedMapped(s, virtual_addr);
    if NoLostFrame(s) {
      FreeLosesNone(s, virtual_addr);
    }
  }

  lemma FreedFrames(s: State, virtual_addr: word)
    requires Agree(s) && CanFree(s, virtual_addr)
    ensures |FreeFrames(Freed(s, virtual_addr).frames)| == |FreeFrames(s.frames)| + 1 <= PAGE_FRAME_MAX_COUNT
  {
    var s', f: nat := Freed(s, virtual_addr), s.dir[PageIndex(virtual_addr)].lower_address;
    FreeFramesBound(s'.frames);
    assert FreeFrames(s'.frames) == FreeFrames(s.frames) + {f};
    assert f !in FreeFrames(s.frames);
  }

  lemma FreedMapped(s: State, virtual_addr: word)
    requires Agree(s) && CanFree(s, virtual_addr)
    ensures |Mapped(s.dir)| == |Mapped(Freed(s, virtual_addr).dir)| + 1
  {
    hide Agree, FreeFrames;
    var i: nat := PageIndex(virtual_addr);
    assert s.dir[i].lower_address < PAGE_FRAME_MAX_COUNT by { MappedFrame(s, i); }
    assert Mapped(s.dir) == Mapped(Freed(s, virtual_addr).dir) + {i};
  }

  lemma MappedFrame(s: State, i: nat)
    requires Agree(s) && i < PAGE_ENTRY_COUNT && s.dir[i].flag.present
    ensures s.dir[i].lower_address < PAGE_FRAME_MAX_COUNT && s.frames[s.dir[i].lower_address]
  {
  }

  lemma FreeLosesNone(s: State, virtual_addr: word)
    requires Agree(s) && NoLostFrame(s) && CanFree(s, virtual_addr)
    ensures NoLostFrame(Freed(s, virtual_addr))
  {
    var s', i := Freed(s, virtual_addr), PageIndex(virtual_addr);
    forall g | 0 <= g < PAGE_FRAME_MAX_COUNT && s'.frames[g]
      ensures exists j :: 0 <= j < PAGE_ENTRY_COUNT && s'.dir[j].flag.present && s'.dir[j].lower_address == g
    {
      var j :| 0 <= j < PAGE_ENTRY_COUNT && s.dir[j].flag.present && s.dir[j].lower_address == g;
      assert s'.dir[j] == s.dir[j];
    }
  }

  // ---------- Runs ----------

  datatype Op = Allocate(virtual_addr: word, noise: Flag) | Free(virtual_addr: word)

  function Step(s: State, op: Op): State
    requires Agree(s)
  {
    match op
    case Allocate(a, noise) => if CanAllocate(s) then Allocated(s, a, noise) else s
    case Free(a) => if CanFree(s, a) then Freed(s, a) else s
  }

  lemma StepKeeps(s: State, op: Op)
    requires Agree(s)
    ensures Agree(Step(s, op))
    ensures Accounted(s) ==> (Accounted(Step(s, op)) <==> !Overwrites(s, op))
    ensures KernelKept(s) && !FreesKernelPage(op) ==> KernelKept(Step(s, op))
  {
    match op
    case Allocate(a, noise) =>
      if CanAllocate(s) {
        AllocateKeeps(s, a, noise);
        if Accounted(s) { AllocateAccounts(s, a, noise); }
      }
    case Free(a) => if CanFree(s, a) { FreeKeeps(s, a); }
  }

  /** An allocation over a page that is already mapped. */
  predicate Overwrites(s: State, op: Op) {
    op.Allocate? && CanAllocate(s) && CanFree(s, op.virtual_addr)
  }

  predicate FreesKernelPage(op: Op) {
    op.Free? && PageIndex(op.virtual_addr) == KERNEL_PAGE
  }

  /** Frame 0 is marked, and no page but the kernel's maps it. */
  ghost predicate KernelKept(s: State) {
    s.frames[0] && forall i :: 0 <= i < PAGE_ENTRY_COUNT && s.dir[i].flag.present && s.dir[i].lower_address == 0 ==> i == KERNEL_PAGE
  }

  ghost function Run(s: State, ops: seq<Op>): State
    requires Agree(s)
    decreases |ops|
  {
    if ops == [] then s else StepKeeps(s, ops[0]); Run(Step(s, ops[0]), ops[1..])
  }

  ghost predicate NeverOverwrites(s: State, ops: seq<Op>)
    requires Agree(s)
    decreases |ops|
  {
    ops == [] || (!Overwrites(s, ops[0]) && (StepKeeps(s, ops[0]); NeverOverwrites(Step(s, ops[0]), ops[1..])))
  }

  /** Each of `ops` allocates. */
  ghost predicate AllAllocate(s: State, ops: seq<Op>)
    requires Agree(s)
    decreases |ops|
  {
    ops == [] ||
    (ops[0].Allocate? && CanAllocate(s) && (StepKeeps(s, ops[0]); AllAllocate(Step(s, ops[0]), ops[1..])))
  }

  /** What the check promises: that many allocations in a row succeed exactly when
      the counter is at least their number. */
  lemma {:induction false} CheckIsEnough(s: State, ops: seq<Op>)
    requires Agree(s) && forall op :: op in ops ==> op.Allocate?
    ensures AllAllocate(s, ops) <==> |ops| <= s.free
    decreases |ops|
  {
    hide Agree, CanAllocate;
    if ops != [] {
      AllocateExact(s);
      StepKeeps(s, ops[0]);
      if CanAllocate(s) {
        AllocateKeeps(s, ops[0].virtual_addr, ops[0].noise);
        CheckIsEnough(Step(s, ops[0]), ops[1..]);
      }
    }
  }

  /** In every state a run reaches, bitmap, counter and directory agree. If the
      run never allocates over a mapped page, the marked frames are the mapped
      ones and free plus mapped frames are all frames. If it never frees the
      kernel's page, frame 0 is never handed out. */
  lemma {:induction false} RunKeeps(s: State, ops: seq<Op>)
    requires Agree(s)
    ensures Agree(Run(s, ops))
    ensures Accounted(s) && NeverOverwrites(s, ops) ==> Accounted(Run(s, ops))
    ensures KernelKept(s) && (forall op :: op in ops ==> !FreesKernelPage(op)) ==> KernelKept(Run(s, ops))
    decreases |ops|
  {
    hide Agree, Accounted, KernelKept, FreesKernelPage, Overwrites, Step;
    if ops != [] {
      StepKeeps(s, ops[0]);
      RunKeeps(Step(s, ops[0]), ops[1..]);
    }
  }

  /** Number of allocations of a run that map over a mapped page. */
  ghost function Overwritten(s: State, ops: seq<Op>): nat
    requires Agree(s)
    decreases |ops|
  {
    if ops == [] then 0
    else
      StepKeeps(s, ops[0]);
      (if Overwrites(s, ops[0]) then 1 else 0) + Overwritten(Step(s, ops[0]), ops[1..])
  }

  lemma StepBalances(s: State, op: Op)
    requires Agree(s)
    ensures var s' := Step(s, op);
            s'.free + |Mapped(s'.dir)| + (if Overwrites(s, op) then 1 else 0) == s.free + |Mapped(s.dir)|
  {
    hide Agree, Mapped, FirstFree;
    match op
    case Allocate(a, noise) =>
      if CanAllocate(s) {
        AllocateKeeps(s, a, noise);
        AllocatedMapped(s, a, noise);
      }
    case Free(a) =>
      if CanFree(s, a) {
        FreeKeeps(s, a);
        FreedMapped(s, a);
      }
  }

  /** Over every run, each allocation over a mapped page loses one frame, and
      nothing else loses or finds one. A run keeps every frame accounted for
      exactly when it has none of these. */
  lemma {:induction false} RunBalances(s: State, ops: seq<Op>)
    requires Agree(s)
    ensures var s' := Run(s, ops);
            Agree(s') && s'.free + |Mapped(s'.dir)| + Overwritten(s, ops) == s.free + |Mapped(s.dir)| &&
            |LostFrames(s')| == |LostFrames(s)| + Overwritten(s, ops)
    ensures Overwritten(s, ops) == 0 <==> NeverOverwrites(s, ops)
    ensures Accounted(s) ==> (Accounted(Run(s, ops)) <==> NeverOverwrites(s, ops))
    decreases |ops|
  {
    hide Agree, NoLostFrame, Mapped, Overwrites, Step, LostFrames;
    RunKeeps(s, ops);
    FramesAddUp(s);
    FramesAddUp(Run(s, ops));
    if ops != [] {
      StepKeeps(s, ops[0]);
      StepBalances(s, ops[0]);
      RunBalances(Step(s, ops[0]), ops[1..]);
    }
  }

  // ---------- Access rights ----------

  /** Every present entry is a writable 4 MiB page, every other one is zero. */
  ghost predicate WellFlagged(s: State) {
    forall i :: 0 <= i < PAGE_ENTRY_COUNT ==>
      if s.dir[i].flag.present then s.dir[i].flag.read_write && s.dir[i].flag.page_size
      else s.dir[i].flag == NO_FLAGS && s.dir[i].lower_address == 0
  }

  predicate Succeeds(s: State, op: Op) {
    match op
    case Allocate(_, _) => CanAllocate(s)
    case Free(a) => CanFree(s, a)
  }

  /** The last request for `page` that succeeded in the run was an allocation; if
      there was none, `before`. */
  ghost predicate Granted(s: State, ops: seq<Op>, page: nat, before: bool)
    requires Agree(s)
    decreases |ops|
  {
    if ops == [] then before
    else
      StepKeeps(s, ops[0]);
      var now := if PageIndex(ops[0].virtual_addr) == page && Succeeds(s, ops[0]) then ops[0].Allocate? else before;
      Granted(Step(s, ops[0]), ops[1..], page, now)
  }

  lemma StepFlags(s: State, op: Op, page: nat)
    requires Agree(s) && page < PAGE_ENTRY_COUNT
    ensures var e, e' := s.dir[page], Step(s, op).dir[page];
            if PageIndex(op.virtual_addr) == page && Succeeds(s, op) then
              if op.Allocate? then IsUserPage(e'.flag) else e'.flag == NO_FLAGS && e'.lower_address == 0
            else e' == e
    ensures WellFlagged(s) ==> WellFlagged(Step(s, op))
  {
    hide FirstFree;
  }

  /** Over every run a user program may access a page exactly when the last request for
      it that succeeded was an allocation, and present entries stay writable 4 MiB
      pages. */
  lemma {:induction false} RunGrants(s: State, ops: seq<Op>, page: nat)
    requires Agree(s) && WellFlagged(s) && page < PAGE_ENTRY_COUNT
    ensures Agree(Run(s, ops)) && WellFlagged(Run(s, ops))
    ensures Run(s, ops).dir[page].flag.user_supervisor <==> Granted(s, ops, page, s.dir[page].flag.user_supervisor)
    decreases |ops|
  {
    hide Agree, WellFlagged, Step, Succeeds;
    if ops != [] {
      StepKeeps(s, ops[0]);
      StepFlags(s, ops[0], page);
      RunGrants(Step(s, ops[0]), ops[1..], page);
    }
  }

  /** After boot no page is a user page; from there the rights follow the requests, and
      freeing a page just allocated always restores the whole state. */
  lemma ReachableGrants(ops: seq<Op>, page: nat)
    requires page < PAGE_ENTRY_COUNT
    ensures Agree(Boot()) && Agree(Run(Boot(), ops)) && WellFlagged(Run(Boot(), ops))
    ensures Run(Boot(), ops).dir[page].flag.user_supervisor <==> Granted(Boot(), ops, page, false)
    ensures forall a: word, noise: Flag ::
      var s := Run(Boot(), ops);
      CanAllocate(s) && !CanFree(s, a) ==>
        Agree(Allocated(s, a, noise)) && CanFree(Allocated(s, a, noise), a) && Freed(Allocated(s, a, noise), a) == s
  {
    BootAgrees();
    BootFlags();
    RunGrants(Boot(), ops, page);
    var s := Run(Boot(), ops);
    forall a: word, noise: Flag | CanAllocate(s) && !CanFree(s, a)
      ensures Agree(Allocated(s, a, noise)) && CanFree(Allocated(s, a, noise), a) && Freed(Allocated(s, a, noise), a) == s
    {
      FreeUndoesAllocate(s, a, noise);
    }
  }

  lemma BootFlags()
    ensures WellFlagged(Boot()) && forall i :: 0 <= i < PAGE_ENTRY_COUNT ==> !Boot().dir[i].flag.user_supervisor
  {
  }

  lemma ReachableAgrees(ops: seq<Op>)
    ensures Agree(Boot()) && Agree(Run(Boot(), ops))
    ensures NeverOverwrites(Boot(), ops) <==> Accounted(Run(Boot(), ops))
    ensures |LostFrames(Run(Boot(), ops))| == Overwritten(Boot(), ops)
    ensures (forall op :: op in ops ==> !FreesKernelPage(op)) ==> KernelKept(Run(Boot(), ops))
  {
    BootAgrees();
    BootKeepsKernel();
    RunKeeps(Boot(), ops);
    FramesAddUp(Boot());
    RunBalances(Boot(), ops);
  }

  lemma BootKeepsKernel()
    ensures KernelKept(Boot())
  {
  }

  /** Freeing the kernel's page hands frame 0 to the next allocation. */
  lemma KernelFrameReleased(s: State, virtual_addr: word)
    requires Agree(s) && PageIndex(virtual_addr) == KERNEL_PAGE && CanFree(s, virtual_addr)
    ensures s.dir[KERNEL_PAGE].lower_address == 0 ==> FirstFree(Freed(s, virtual_addr).frames, 0) == 0
    ensures s.frames[0] ==> FirstFree(s.frames, 0) != 0
  {
  }

  // ---------- Address translation ----------

  /** The physical address of a mapped virtual address. */
  function Translate(d: Directory, virtual_addr: word): int
    requires d[PageIndex(virtual_addr)].flag.present
  {
    d[PageIndex(virtual_addr)].lower_address * PAGE_FRAME_SIZE + virtual_addr % PAGE_FRAME_SIZE
  }

  /** Different mapped virtual addresses have different physical addresses. */
  lemma NoAliasing(s: State, a: word, b: word)
    requires Agree(s) && a != b
    requires s.dir[PageIndex(a)].flag.present && s.dir[PageIndex(b)].flag.present
    ensures Translate(s.dir, a) != Translate(s.dir, b)
  {
    var i, j := PageIndex(a), PageIndex(b);
    SplitAddress(a);
    SplitAddress(b);
    if i != j {
      assert s.dir[i].lower_address != s.dir[j].lower_address;
    }
  }

  lemma SplitAddress(a: word)
    ensures a == PageIndex(a) * PAGE_FRAME_SIZE + a % PAGE_FRAME_SIZE
  {
  }

  // ---------- Allocation undone ----------

  /** Freeing a page just allocated restores bitmap and counter, and the whole
      state exactly when the entry's flags and address were zero; the next
      allocation then takes the same frame again. */
  lemma FreeUndoesAllocate(s: State, virtual_addr: word, noise: Flag)
    requires Agree(s) && CanAllocate(s) && !CanFree(s, virtual_addr)
    ensures var s1 := Allocated(s, virtual_addr, noise);
            Agree(s1) && CanFree(s1, virtual_addr) &&
            var s2 := Freed(s1, virtual_addr);
            s2.frames == s.frames && s2.free == s.free && FirstFree(s2.frames, 0) == FirstFree(s.frames, 0) &&
            var e := s.dir[PageIndex(virtual_addr)];
            (s2 == s <==> e.flag == NO_FLAGS && e.lower_address == 0)
  {
    AllocateKeeps(s, virtual_addr, noise);
    var s1 := Allocated(s, virtual_addr, noise);
    FreeKeeps(s1, virtual_addr);
    var s2 := Freed(s1, virtual_addr);
    var i := PageIndex(virtual_addr);
    assert s2.frames == s.frames;
    assert s2.dir == s.dir[i := s.dir[i].(flag := NO_FLAGS, lower_address := 0)];
    assert s2.dir == s.dir <==> s2.dir[i] == s.dir[i];
  }
}
