/**
 * The process table and the timer-driven round-robin scheduler of
 * sw/os/kernel.c, on top of the allocator and the name registry.
 */
module Kernel {
  import opened Words
  import Mem
  import Mtu
  import PidReg

  const PROCS_MAX: int := 16

  type Regs = r: seq<uint32> | |r| == 32 witness seq(32, i requires 0 <= i => 0 as uint32)

  /** One slot of z_procs[]; a slot is unused while its base is zero. */
  datatype Proc = Proc(base: uint32, size: uint32, active: bool, die: bool, regs: Regs) {
    predicate Runnable() { active && !die }
    function Cleared(): Proc { this.(base := 0, active := false, die := false) }
  }

  type Procs = p: seq<Proc> | |p| == PROCS_MAX witness seq(PROCS_MAX, i requires 0 <= i => NO_PROC)
  type Pid = p: int | 0 <= p < PROCS_MAX

  const NO_PROC: Proc := Proc(0, 0, false, false, seq(32, i requires 0 <= i => 0 as uint32))

  datatype State = State(procs: Procs, pid: Pid, pool: Mem.Pool, names: PidReg.Table)

  // ----- the scheduler as a function

  /** How far the scan moves from slot `a` to reach slot `b`: 1 to 16, 16 for a full round. */
  function Dist(a: Pid, b: Pid): int {
    if b > a then b - a else b - a + PROCS_MAX
  }

  function ActiveCount(procs: seq<Proc>): nat {
    if procs == [] then 0 else (if procs[0].active then 1 else 0) + ActiveCount(procs[1..])
  }

  /** Frees everything a dying process holds and clears its slot. */
  function Reap(k: State, p: Pid): State {
    k.(procs := k.procs[p := k.procs[p].Cleared()],
       pool := Mem.Free(k.pool, k.procs[p].base),
       names := PidReg.ReleaseAll(k.names, p))
  }

  function NextSlot(p: Pid): Pid {
    if p + 1 >= PROCS_MAX then 0 else p + 1
  }

  lemma DistSteps(a: Pid)
    ensures forall x: Pid :: Dist(a, x) == if x == NextSlot(a) then 1 else 1 + Dist(NextSlot(a), x)
  {
  }

  /** The next_process loop; it ends because pid 0 is never killed. */
  function Scan(k: State): (r: State)
    requires k.procs[0].Runnable()
    ensures r.procs[r.pid].Runnable()
    ensures forall x: Pid | Dist(k.pid, x) < Dist(k.pid, r.pid) :: !k.procs[x].Runnable()
    ensures forall x: Pid :: r.procs[x] ==
              if Dist(k.pid, x) < Dist(k.pid, r.pid) && k.procs[x].die then k.procs[x].Cleared() else k.procs[x]
    decreases Dist(k.pid, 0)
  {
    var p := NextSlot(k.pid);
    DistSteps(k.pid);
    if k.procs[p].die then Scan(Reap(k, p).(pid := p))
    else if !k.procs[p].active then Scan(k.(pid := p))
    else k.(pid := p)
  }

  lemma ScanMoves(k: State)
    requires k.procs[0].Runnable()
    ensures var p := NextSlot(k.pid);
            if k.procs[p].die then
              p != 0 && Dist(p, 0) < Dist(k.pid, 0) && Scan(k) == Scan(Reap(k, p).(pid := p))
            else if !k.procs[p].active then p != 0 && Dist(p, 0) < Dist(k.pid, 0) && Scan(k) == Scan(k.(pid := p))
            else Scan(k) == k.(pid := p)
  {
    DistSteps(k.pid);
  }

  /** The KTIMER branch of z_kernel_entry: the new state and the registers it resumes. */
  function Tick(k: State, regs: Regs): (State, Regs)
    requires k.procs[0].Runnable()
  {
    if ActiveCount(k.procs) < 2 then (k, regs)
    else
      var r := Scan(k.(procs := k.procs[k.pid := k.procs[k.pid].(regs := regs)]));
      (r, r.procs[r.pid].regs)
  }

  /** The first unused slot at or after `i`. */
  function UnusedSlot(procs: Procs, i: nat): (r: nat)
    requires i <= PROCS_MAX
    ensures i <= r <= PROCS_MAX
    ensures r < PROCS_MAX ==> procs[r].base == 0
    ensures forall j | i <= j < r :: procs[j].base != 0
    decreases PROCS_MAX - i
  {
    if i == PROCS_MAX || procs[i].base == 0 then i else UnusedSlot(procs, i + 1)
  }

  function InitialRegs(p: Pid, memSize: uint32): Regs {
    var zero := seq(32, i requires 0 <= i => 0 as uint32);
    if p == 0 then zero[0 := 0x4000_0000][2 := Wrap32(0x4000_0000 + memSize)]
    else zero[0 := 0x8000_0000][2 := Wrap32(0x8000_0000 + memSize - 4)]
  }

  /** Gives slot `p` its memory and initial registers. */
  function Occupy(k: State, p: Pid, memSize: uint32): (State, Pid) {
    var (pool, mem) := Mem.Alloc(k.pool, memSize);
    if mem == None then (k.(pool := pool), 0)
    else
      var proc := k.procs[p].(base := mem.value, size := memSize, regs := InitialRegs(p, memSize));
      (k.(procs := k.procs[p := proc], pool := pool), p)
  }

  function CreateSized(k: State, memSize: uint32): (State, Pid) {
    var p := UnusedSlot(k.procs, 0);
    if p == PROCS_MAX then (k, 0) else Occupy(k, p, memSize)
  }

  /** k_proc_create; pid 0 also means that nothing was created. */
  function Create(k: State, size: uint32, stackSize: uint32): (State, Pid) {
    CreateSized(k, Mem.AlignUp(Wrap32(size + stackSize)))
  }

  datatype Step =
    | TimerTick(regs: Regs)
    | DoCreate(size: uint32, stackSize: uint32)
    | DoStart(pid: Pid)
    | DoStop(pid: Pid)
    | DoKill(pid: Pid)
    | DoRegister(arg: Option<string>)

  /** Pid 0 is never stopped or killed, and only slots in use are started or killed. */
  predicate Permitted(k: State, s: Step) {
    match s
    case DoStart(p) => k.procs[p].base != 0
    case DoStop(p) => p != 0
    case DoKill(p) => k.procs[p].base != 0 && p != 0
    case _ => true
  }

  function Next(k: State, s: Step): State
    requires k.procs[0].Runnable()
  {
    match s
    case TimerTick(regs) => Tick(k, regs).0
    case DoCreate(size, stackSize) => Create(k, size, stackSize).0
    case DoStart(p) => k.(procs := k.procs[p := k.procs[p].(active := true)])
    case DoStop(p) => k.(procs := k.procs[p := k.procs[p].(active := false)])
    case DoKill(p) => k.(procs := k.procs[p := k.procs[p].(die := true)])
    case DoRegister(arg) => k.(names := PidReg.Register(k.names, arg, k.pid).0)
  }

  // ----- what every step keeps

  /** `p` holds a block in use that starts at its base and has room for its size. */
  ghost predicate OwnsBlock(k: State, p: Pid) {
    exists e :: e in Mem.Live(k.pool) && e.start == k.procs[p].base && k.procs[p].size <= e.size
  }

  ghost predicate Inv(k: State, total: int) {
    && k.procs[0].Runnable() && k.procs[0].base != 0
    && Mem.Sound(k.pool, total)
    && (forall p: Pid | k.procs[p].base != 0 :: OwnsBlock(k, p))
    && (forall p: Pid, q: Pid | p != q && k.procs[p].base != 0 :: k.procs[p].base != k.procs[q].base)
    && (forall p: Pid | k.procs[p].base == 0 :: !k.procs[p].active && !k.procs[p].die)
    && PidReg.Unique(k.names)
  }

  /** The block of a used slot. */
  ghost function BlockOf(k: State, p: Pid): Mem.Extent
    requires OwnsBlock(k, p)
  {
    var e :| e in Mem.Live(k.pool) && e.start == k.procs[p].base && k.procs[p].size <= e.size;
    e
  }

  /** Processes never share memory. */
  lemma SlotsOwnDisjointBlocks(k: State, total: int, p: Pid, q: Pid)
    requires Inv(k, total) && p != q && k.procs[p].base != 0 && k.procs[q].base != 0
    ensures var e, f := BlockOf(k, p), BlockOf(k, q);
            e.used && f.used && (e.End() <= f.start || f.End() <= e.start)
    ensures var a, b := k.procs[p], k.procs[q];
            a.base + a.size <= b.base || b.base + b.size <= a.base
  {
    Mem.LiveDisjoint(k.pool, total, BlockOf(k, p), BlockOf(k, q));
  }

  lemma ReapKeepsInv(k: State, total: int, p: Pid)
    requires Inv(k, total) && p != 0 && k.procs[p].base != 0
    ensures Inv(Reap(k, p), total)
    ensures Mem.Live(Reap(k, p).pool) == set e | e in Mem.Live(k.pool) && e.start != k.procs[p].base
  {
    var r := Reap(k, p);
    Mem.FreeKeepsSound(k.pool, total, k.procs[p].base);
    Mem.FreeLive(k.pool, total, k.procs[p].base);
    PidReg.ReleaseKeepsUnique(k.names, p);
    forall q: Pid | r.procs[q].base != 0 ensures OwnsBlock(r, q) {
      assert OwnsBlock(k, q);
      var e :| e in Mem.Live(k.pool) && e.start == k.procs[q].base;
      assert e in Mem.Live(r.pool);
    }
  }

  /** The slots the scan from `k` to `r` reaps. */
  predicate Reaped(k: State, r: State, x: Pid) {
    Dist(k.pid, x) < Dist(k.pid, r.pid) && k.procs[x].die
  }

  lemma {:induction false} ScanKeepsInv(k: State, total: int)
    requires Inv(k, total)
    ensures Inv(Scan(k), total)
    decreases Dist(k.pid, 0)
  {
    var p := NextSlot(k.pid);
    if k.procs[p].die {
      ReapKeepsInv(k, total, p);
      ReapedAndMoved(Reap(k, p), total, p);
      ScanKeepsInv(Reap(k, p).(pid := p), total);
    } else if !k.procs[p].active {
      ReapedAndMoved(k, total, p);
      ScanKeepsInv(k.(pid := p), total);
    } else {
      ReapedAndMoved(k, total, p);
    }
  }

  /** The invariant does not depend on whose turn it is. */
  lemma ReapedAndMoved(k: State, total: int, p: Pid)
    requires Inv(k, total)
    ensures Inv(k.(pid := p), total)
  {
  }

  /** The block `e` belongs to a slot the scan reaps. */
  ghost predicate Freed(k: State, r: State, e: Mem.Extent) {
    exists x: Pid :: Reaped(k, r, x) && e.start == k.procs[x].base
  }

  /** Exactly the blocks of the reaped slots become free. */
  lemma {:induction false} ScanFrees(k: State, total: int, e: Mem.Extent)
    requires Inv(k, total)
    ensures var r := Scan(k); e in Mem.Live(r.pool) <==> e in Mem.Live(k.pool) && !Freed(k, r, e)
    decreases Dist(k.pid, 0)
  {
    var p, r := NextSlot(k.pid), Scan(k);
    DistSteps(k.pid);
    if k.procs[p].die {
      var k' := Reap(k, p).(pid := p);
      ReapKeepsInv(k, total, p);
      ReapedAndMoved(Reap(k, p), total, p);
      ScanFrees(k', total, e);
      FreedAfterReap(k, k', r, p, e);
    } else if !k.procs[p].active {
      var k' := k.(pid := p);
      ReapedAndMoved(k, total, p);
      ScanFrees(k', total, e);
      FreedAfterSkip(k, k', r, p, e);
    }
  }

  lemma FreedAfterReap(k: State, k': State, r: State, p: Pid, e: Mem.Extent)
    requires p == NextSlot(k.pid) && k.procs[p].die && k' == Reap(k, p).(pid := p) && r.pid != p
    ensures Freed(k, r, e) <==> e.start == k.procs[p].base || Freed(k', r, e)
  {
    DistSteps(k.pid);
    assert Reaped(k, r, p);
    if Freed(k', r, e) {
      var x: Pid :| Reaped(k', r, x) && e.start == k'.procs[x].base;
      assert x != p && Reaped(k, r, x);
    }
    if Freed(k, r, e) {
      var x: Pid :| Reaped(k, r, x) && e.start == k.procs[x].base;
      if x != p { assert Reaped(k', r, x); }
    }
  }

  lemma FreedAfterSkip(k: State, k': State, r: State, p: Pid, e: Mem.Extent)
    requires p == NextSlot(k.pid) && !k.procs[p].die && k' == k.(pid := p) && r.pid != p
    ensures Freed(k, r, e) <==> Freed(k', r, e)
  {
  }

  lemma TickKeepsInv(k: State, total: int, regs: Regs)
    requires Inv(k, total)
    ensures Inv(Tick(k, regs).0, total)
  {
    if ActiveCount(k.procs) >= 2 {
      var saved := k.(procs := k.procs[k.pid := k.procs[k.pid].(regs := regs)]);
      SameBasesKeepInv(k, saved, total);
      ScanKeepsInv(saved, total);
    }
  }

  /** Changing registers or flags of used slots, but not pid 0's, keeps the invariant. */
  lemma SameBasesKeepInv(k: State, k': State, total: int)
    requires Inv(k, total)
    requires k'.pool == k.pool && PidReg.Unique(k'.names) && k'.procs[0].Runnable()
    requires forall q: Pid :: k'.procs[q].base == k.procs[q].base && k'.procs[q].size == k.procs[q].size
    requires forall q: Pid | k.procs[q].base == 0 :: !k'.procs[q].active && !k'.procs[q].die
    ensures Inv(k', total)
  {
    forall q: Pid | k'.procs[q].base != 0 ensures OwnsBlock(k', q) {
      assert OwnsBlock(k, q);
    }
  }

  /** A successful allocation of an aligned size: a new live block with room for it, and no old one at its start. */
  lemma NewBlock(pool: Mem.Pool, total: int, memSize: uint32)
    requires Mem.Sound(pool, total) && Mem.Aligned(memSize)
    ensures var (q, r) := Mem.Alloc(pool, memSize);
            && Mem.Sound(q, total)
            && (r == None ==> q == pool)
            && (r.Some? ==>
                  && r.value != 0 && memSize <= Mem.Need(memSize)
                  && Mem.Live(q) == Mem.Live(pool) + {Mem.Extent(r.value, Mem.Need(memSize), true)}
                  && forall e | e in Mem.Live(pool) :: e.start != r.value)
  {
    Mem.AllocKeepsSound(pool, total, memSize);
    Mem.AllocLive(pool, total, memSize);
    Mem.NeedIsAligned(memSize);
    Mem.NeedCovers(memSize);
    forall e | e in Mem.Live(pool) ensures e.size > 0 {
      Mem.LiveNonempty(pool, total, e);
    }
  }

  /** k_proc_create hands a new process a block nobody else holds. */
  lemma CreateKeepsInv(k: State, total: int, size: uint32, stackSize: uint32)
    requires Inv(k, total)
    ensures var (k', p) := Create(k, size, stackSize);
            && Inv(k', total)
            && (p == 0 ==> k' == k)
            && (p != 0 ==> k.procs[p].base == 0 && k'.procs[p].base != 0
                           && forall q: Pid | q != p :: k'.procs[q] == k.procs[q])
  {
    Mem.AlignUpIsAligned(Wrap32(size + stackSize));
    CreateSizedKeepsInv(k, total, Mem.AlignUp(Wrap32(size + stackSize)));
  }

  lemma CreateSizedKeepsInv(k: State, total: int, memSize: uint32)
    requires Inv(k, total) && Mem.Aligned(memSize)
    ensures var (k', p) := CreateSized(k, memSize);
            && Inv(k', total)
            && (p == 0 ==> k' == k)
            && (p != 0 ==> k.procs[p].base == 0 && k'.procs[p].base != 0
                           && forall q: Pid | q != p :: k'.procs[q] == k.procs[q])
  {
    var (k', p) := CreateSized(k, memSize);
    NewBlock(k.pool, total, memSize);
    if p != 0 {
      OccupyingKeepsInv(k, k', total, p, Mem.Extent(k'.procs[p].base, Mem.Need(memSize), true));
    }
  }

  /** Giving an unused slot a block that nobody holds keeps the invariant. */
  lemma OccupyingKeepsInv(k: State, k': State, total: int, p: Pid, e: Mem.Extent)
    requires Inv(k, total) && k.procs[p].base == 0
    requires Mem.Sound(k'.pool, total) && k'.names == k.names
    requires forall q: Pid | q != p :: k'.procs[q] == k.procs[q]
    requires k'.procs[p].base == e.start != 0 && k'.procs[p].size <= e.size
    requires Mem.Live(k'.pool) == Mem.Live(k.pool) + {e} && forall f | f in Mem.Live(k.pool) :: f.start != e.start
    ensures Inv(k', total)
  {
    assert e in Mem.Live(k'.pool);
    forall q: Pid | k'.procs[q].base != 0 ensures OwnsBlock(k', q) && (q != p ==> k'.procs[q].base != e.start) {
      if q != p { assert OwnsBlock(k, q); }
    }
  }

  lemma StepKeepsInv(k: State, total: int, s: Step)
    requires Inv(k, total) && Permitted(k, s)
    ensures Inv(Next(k, s), total)
  {
    match s {
      case TimerTick(regs) => TickKeepsInv(k, total, regs);
      case DoCreate(size, stackSize) => CreateKeepsInv(k, total, size, stackSize);
      case DoRegister(arg) =>
        PidReg.RegisterKeepsUnique(k.names, arg, k.pid);
        SameBasesKeepInv(k, Next(k, s), total);
      case _ => SameBasesKeepInv(k, Next(k, s), total);
    }
  }

  /** Starting, stopping or killing a slot keeps the invariant exactly when it is permitted. */
  lemma FlagStepKeepsInvExactlyWhen(k: State, total: int, s: Step)
    requires Inv(k, total) && (s.DoStart? || s.DoStop? || s.DoKill?)
    ensures Inv(Next(k, s), total) <==> Permitted(k, s)
  {
    if Permitted(k, s) {
      StepKeepsInv(k, total, s);
    } else {
      assert Next(k, s).procs[s.pid] != k.procs[s.pid];
    }
  }

  /** The state main() sets up before it starts the shell. */
  function Boot(total: uint32, kernelSize: uint32, stackSize: uint32): State {
    var empty := State(seq(PROCS_MAX, i requires 0 <= i => NO_PROC), 0, Mem.Init(total),
                       seq(PidReg.PIDREG_MAX, i requires 0 <= i => PidReg.EMPTY));
    var k := Create(empty, kernelSize, stackSize).0;
    k.(procs := k.procs[0 := k.procs[0].(active := true)])
  }

  /** The kernel gets going when its own image fits the pool. */
  lemma BootEstablishesInv(total: uint32, kernelSize: uint32, stackSize: uint32)
    requires Mem.PoolSize(total) && Mem.Need(Mem.AlignUp(Wrap32(kernelSize + stackSize))) <= total
    ensures Inv(Boot(total, kernelSize, stackSize), total)
    ensures Boot(total, kernelSize, stackSize).procs[0].base == Mem.MEM_BASE
  {
    var memSize := Mem.AlignUp(Wrap32(kernelSize + stackSize));
    var pool := Mem.Init(total);
    Mem.InitSound(total);
    NewBlock(pool, total, memSize);
    FirstAllocation(total, memSize);
    var k := Boot(total, kernelSize, stackSize);
    assert k.pool == Mem.Alloc(pool, memSize).0 && k.procs[0].base == Mem.MEM_BASE;
    assert Mem.Extent(Mem.MEM_BASE, Mem.Need(memSize), true) in Mem.Live(k.pool);
    assert OwnsBlock(k, 0);
  }

  lemma FirstAllocation(total: uint32, memSize: uint32)
    requires Mem.PoolSize(total) && Mem.Need(memSize) <= total
    ensures Mem.Alloc(Mem.Init(total), memSize).1 == Some(Mem.MEM_BASE)
  {
    assert Mem.FirstFit(Mem.Init(total).list, Mem.Need(memSize), 0) == 0;
  }

  // ----- whole runs

  /** All steps of the run are permitted when they happen. */
  ghost predicate Legal(k: State, steps: seq<Step>)
    decreases |steps|
  {
    steps == [] || (k.procs[0].Runnable() && Permitted(k, steps[0]) && Legal(Next(k, steps[0]), steps[1..]))
  }

  function Run(k: State, steps: seq<Step>): State
    requires Legal(k, steps)
    decreases |steps|
  {
    if steps == [] then k else Run(Next(k, steps[0]), steps[1..])
  }

  lemma {:induction false} RunKeepsInv(k: State, total: int, steps: seq<Step>)
    requires Inv(k, total) && Legal(k, steps)
    ensures Inv(Run(k, steps), total)
    decreases |steps|
  {
    if steps != [] {
      StepKeepsInv(k, total, steps[0]);
      RunKeepsInv(Next(k, steps[0]), total, steps[1..]);
    }
  }

  /** `q` can run in every state of the run. */
  ghost predicate StaysRunnable(k: State, steps: seq<Step>, q: Pid)
    requires Legal(k, steps)
    decreases |steps|
  {
    k.procs[q].Runnable() && (steps != [] ==> StaysRunnable(Next(k, steps[0]), steps[1..], q))
  }

  /** The step hands the processor over to another turn. */
  predicate Switches(k: State, s: Step) {
    s.TimerTick? && ActiveCount(k.procs) >= 2
  }

  /** How many turns `q` gets before `p` gets one; None when the run ends before `p` does. */
  ghost function TurnsBefore(k: State, steps: seq<Step>, q: Pid, p: Pid): Option<nat>
    requires Legal(k, steps)
    decreases |steps|
  {
    if steps == [] then None
    else
      var k' := Next(k, steps[0]);
      if !Switches(k, steps[0]) then TurnsBefore(k', steps[1..], q, p)
      else if k'.pid == p then Some(0)
      else
        match TurnsBefore(k', steps[1..], q, p)
        case None => None
        case Some(n) => Some(n + if k'.pid == q then 1 else 0)
  }

  lemma OnlySwitchesMove(k: State, s: Step)
    requires k.procs[0].Runnable() && !Switches(k, s)
    ensures Next(k, s).pid == k.pid
  {
  }

  /** A switch stops at the first runnable slot, so it cannot pass `q`. */
  lemma SwitchCannotPass(k: State, s: Step, q: Pid)
    requires k.procs[0].Runnable() && Switches(k, s) && k.procs[q].Runnable()
    ensures Dist(k.pid, Next(k, s).pid) <= Dist(k.pid, q)
  {
  }

  lemma DistSplit(a: Pid, b: Pid, c: Pid)
    requires Dist(a, b) < Dist(a, c)
    ensures Dist(b, c) == Dist(a, c) - Dist(a, b)
  {
  }

  /** `q` gets a turn before `p` exactly when it is nearer in slot order. */
  lemma {:induction false} NearerGoesFirst(k: State, steps: seq<Step>, q: Pid, p: Pid)
    requires p != q && Legal(k, steps) && StaysRunnable(k, steps, p) && StaysRunnable(k, steps, q)
    ensures var n := TurnsBefore(k, steps, q, p);
            n.Some? ==> n.value == if Dist(k.pid, q) < Dist(k.pid, p) then 1 else 0
    decreases |steps|
  {
    if steps != [] {
      var k' := Next(k, steps[0]);
      NearerGoesFirst(k', steps[1..], q, p);
      if Switches(k, steps[0]) {
        SwitchCannotPass(k, steps[0], p);
        SwitchCannotPass(k, steps[0], q);
        if k'.pid != p { DistSplit(k.pid, k'.pid, p); }
        if k'.pid != q { DistSplit(k.pid, k'.pid, q); }
      } else {
        OnlySwitchesMove(k, steps[0]);
      }
    }
  }

  /**
   * Round robin: between two turns of a process, every other process that
   * stays runnable gets exactly one turn, whatever else is created, started,
   * stopped or killed meanwhile.
   */
  lemma ExactlyOneTurnBetween(k: State, steps: seq<Step>, p: Pid, q: Pid)
    requires p != q && k.pid == p
    requires Legal(k, steps) && StaysRunnable(k, steps, p) && StaysRunnable(k, steps, q)
    ensures TurnsBefore(k, steps, q, p) in {None, Some(1)}
  {
    NearerGoesFirst(k, steps, q, p);
  }

  /** `q` gets a turn in the run. */
  ghost predicate GetsTurn(k: State, steps: seq<Step>, q: Pid)
    requires Legal(k, steps)
    decreases |steps|
  {
    steps != [] &&
      var k' := Next(k, steps[0]);
      (Switches(k, steps[0]) && k'.pid == q) || GetsTurn(k', steps[1..], q)
  }

  ghost function SwitchCount(k: State, steps: seq<Step>): nat
    requires Legal(k, steps)
    decreases |steps|
  {
    if steps == [] then 0
    else (if Switches(k, steps[0]) then 1 else 0) + SwitchCount(Next(k, steps[0]), steps[1..])
  }

  lemma {:induction false} GetsTurnWithinDist(k: State, steps: seq<Step>, q: Pid)
    requires Legal(k, steps) && StaysRunnable(k, steps, q) && SwitchCount(k, steps) >= Dist(k.pid, q)
    ensures GetsTurn(k, steps, q)
    decreases |steps|
  {
    var k' := Next(k, steps[0]);
    if !Switches(k, steps[0]) {
      OnlySwitchesMove(k, steps[0]);
      GetsTurnWithinDist(k', steps[1..], q);
    } else if k'.pid != q {
      SwitchCannotPass(k, steps[0], q);
      DistSplit(k.pid, k'.pid, q);
      GetsTurnWithinDist(k', steps[1..], q);
    }
  }

  /** No starvation: in 16 switches every process that stays runnable gets a turn. */
  lemma EveryoneRunsWithin16Switches(k: State, steps: seq<Step>, q: Pid)
    requires Legal(k, steps) && StaysRunnable(k, steps, q) && SwitchCount(k, steps) >= PROCS_MAX
    ensures GetsTurn(k, steps, q)
  {
    GetsTurnWithinDist(k, steps, q);
  }

  /** The registers restored by the first switch to `q`; None when there is none. */
  ghost function FirstResume(k: State, steps: seq<Step>, q: Pid): Option<Regs>
    requires Legal(k, steps)
    decreases |steps|
  {
    if steps == [] then None
    else
      var k' := Next(k, steps[0]);
      if Switches(k, steps[0]) && k'.pid == q then Some(Tick(k, steps[0].regs).1)
      else FirstResume(k', steps[1..], q)
  }

  lemma {:induction false} SavedRegsAreKept(k: State, total: int, steps: seq<Step>, q: Pid)
    requires Inv(k, total) && k.pid != q && Legal(k, steps) && StaysRunnable(k, steps, q)
    ensures FirstResume(k, steps, q) in {None, Some(k.procs[q].regs)}
    decreases |steps|
  {
    if steps != [] {
      var k' := Next(k, steps[0]);
      StepKeepsInv(k, total, steps[0]);
      RegsOfOthersKept(k, total, steps[0], q);
      if !(Switches(k, steps[0]) && k'.pid == q) {
        if !Switches(k, steps[0]) { OnlySwitchesMove(k, steps[0]); }
        SavedRegsAreKept(k', total, steps[1..], q);
      }
    }
  }

  lemma RegsOfOthersKept(k: State, total: int, s: Step, q: Pid)
    requires Inv(k, total) && Permitted(k, s) && k.procs[q].Runnable() && (k.pid != q || !Switches(k, s))
    ensures Next(k, s).procs[q].regs == k.procs[q].regs
  {
  }

  /** A process resumes with exactly the registers it was preempted with. */
  lemma ResumesWhereItStopped(k: State, total: int, regs: Regs, steps: seq<Step>, q: Pid)
    requires Inv(k, total) && k.pid == q && Legal(k, [TimerTick(regs)] + steps)
    requires StaysRunnable(k, [TimerTick(regs)] + steps, q) && Switches(k, TimerTick(regs))
    ensures FirstResume(k, [TimerTick(regs)] + steps, q) in {None, Some(regs)}
  {
    var all := [TimerTick(regs)] + steps;
    assert all[0] == TimerTick(regs) && all[1..] == steps;
    var k' := Next(k, all[0]);
    StepKeepsInv(k, total, all[0]);
    assert k'.procs[q].regs == regs;
    if k'.pid != q {
      SavedRegsAreKept(k', total, steps, q);
    }
  }

  // ----- how a process begins

  /** The running process has a slot. */
  predicate Running(k: State) { k.procs[k.pid].base != 0 }

  lemma StepKeepsRunning(k: State, total: int, s: Step)
    requires Inv(k, total) && Running(k) && Permitted(k, s)
    ensures Running(Next(k, s))
  {
    if s.TimerTick? {
      TickKeepsInv(k, total, s.regs);
    } else if s.DoCreate? {
      CreateKeepsInv(k, total, s.size, s.stackSize);
    }
  }

  /**
   * The registers that start a program: it runs from the first byte of its own
   * memory, with the last word of that memory on top of its stack and nothing
   * in its other registers.  The addresses are what the translation unit makes
   * of the program counter (regs[0]) and the stack pointer (regs[2]).
   */
  predicate StartsProgram(regs: Regs, base: uint32, size: uint32) {
    && Mtu.Mapped(base, regs[0]) == base
    && Mtu.Mapped(base, regs[2]) == base + size - 4
    && forall i | 0 <= i < 32 && i != 0 && i != 2 :: regs[i] == 0
  }

  /** A new process does not run before it is started, and then begins at the beginning. */
  lemma NewProcessIsReady(k: State, total: int, size: uint32, stackSize: uint32)
    requires Inv(k, total) && total <= Mtu.WINDOW_SIZE
    ensures var (k', p) := Create(k, size, stackSize);
            p != 0 ==>
              && !k'.procs[p].active && !k'.procs[p].die
              && k'.procs[p].size == Mem.AlignUp(Wrap32(size + stackSize))
              && (StartsProgram(k'.procs[p].regs, k'.procs[p].base, k'.procs[p].size) <==> k'.procs[p].size != 0)
  {
    var (k', p) := Create(k, size, stackSize);
    CreateKeepsInv(k, total, size, stackSize);
    if p != 0 {
      OwnMemoryIsSmall(k', total, p);
      Mem.AlignUpIsAligned(Wrap32(size + stackSize));
      RegsStartProgram(p, k'.procs[p].base, k'.procs[p].size);
    }
  }

  lemma RegsStartProgram(p: Pid, base: uint32, size: uint32)
    requires p != 0 && 0 < base < Mtu.WINDOW && size <= Mtu.WINDOW_SIZE && Mem.Aligned(size)
    ensures StartsProgram(InitialRegs(p, size), base, size) <==> size != 0
  {
    WindowStart(base, size);
  }

  lemma OwnMemoryIsSmall(k: State, total: int, p: Pid)
    requires Inv(k, total) && k.procs[p].base != 0
    ensures Mem.MEM_BASE <= k.procs[p].base && k.procs[p].base + k.procs[p].size <= Mem.MEM_BASE + total
  {
    Mem.SoundEnds(k.pool, total);
    assert OwnsBlock(k, p);
  }

  lemma WindowStart(base: uint32, size: uint32)
    requires 0 < base < Mtu.WINDOW && size <= Mtu.WINDOW_SIZE && size % 0x1000 == 0
    ensures Mtu.Mapped(base, 0x8000_0000) == base
    ensures Mtu.Mapped(base, Wrap32(0x8000_0000 + size - 4)) == base + size - 4 <==> size != 0
  {
  }

  /** In any run in which a new process stays runnable once started, that is how its first turn begins. */
  lemma FirstTurnStartsProgram(k: State, total: int, size: uint32, stackSize: uint32, steps: seq<Step>)
    requires Inv(k, total) && Running(k) && total <= Mtu.WINDOW_SIZE
    requires var (k', p) := Create(k, size, stackSize);
             && p != 0 && k'.procs[p].size != 0
             && Legal(k', [DoStart(p)] + steps) && StaysRunnable(Next(k', DoStart(p)), steps, p)
    ensures var (k', p) := Create(k, size, stackSize);
            match FirstResume(Next(k', DoStart(p)), steps, p)
            case None => true
            case Some(regs) => StartsProgram(regs, k'.procs[p].base, k'.procs[p].size)
  {
    var (k', p) := Create(k, size, stackSize);
    assert ([DoStart(p)] + steps)[1..] == steps;
    CreateKeepsInv(k, total, size, stackSize);
    NewProcessIsReady(k, total, size, stackSize);
    StepKeepsInv(k', total, DoStart(p));
    assert k'.pid != p;
    SavedRegsAreKept(Next(k', DoStart(p)), total, steps, p);
  }

  /** The kernel itself begins at the start of the pool, outside the window, with its stack at the end of its memory. */
  lemma KernelStartsAtPoolBase(total: uint32, kernelSize: uint32, stackSize: uint32)
    requires Mem.PoolSize(total) && Mem.Need(Mem.AlignUp(Wrap32(kernelSize + stackSize))) <= total
    ensures var proc := Boot(total, kernelSize, stackSize).procs[0];
            && proc.Runnable() && proc.base == Mem.MEM_BASE
            && proc.regs[0] == proc.base && proc.regs[2] == proc.base + proc.size
            && forall i | 0 <= i < 32 && i != 0 && i != 2 :: proc.regs[i] == 0
  {
    BootEstablishesInv(total, kernelSize, stackSize);
    OwnMemoryIsSmall(Boot(total, kernelSize, stackSize), total, 0);
  }

  // ----- how a process ends

  /** Only a slot that is active and not dying is given a turn, and the three flag calls change one slot's answer. */
  lemma TurnsGoToRunnable(k: State, s: Step)
    requires k.procs[0].Runnable() && Switches(k, s)
    ensures k.procs[Next(k, s).pid].Runnable()
  {
  }

  lemma FlagsDecide(k: State, s: Step, q: Pid)
    requires k.procs[0].Runnable() && (s.DoStart? || s.DoStop? || s.DoKill?)
    ensures var was, now := k.procs[q], Next(k, s).procs[q];
            && (now.base, now.size, now.regs) == (was.base, was.size, was.regs)
            && (q != s.pid ==> now == was)
            && (q == s.pid && s.DoStart? ==> now.Runnable() == !was.die && now.die == was.die)
            && (q == s.pid && s.DoStop? ==> !now.Runnable() && now.die == was.die)
            && (q == s.pid && s.DoKill? ==> !now.Runnable() && now.die && now.active == was.active)
  {
  }

  ghost predicate TwoActive(procs: seq<Proc>) {
    exists i, j :: 0 <= i < j < |procs| && procs[i].active && procs[j].active
  }

  lemma {:induction false} ActiveCountPositive(procs: seq<Proc>)
    ensures ActiveCount(procs) >= 1 <==> exists i :: 0 <= i < |procs| && procs[i].active
    decreases |procs|
  {
    if procs != [] {
      ActiveCountPositive(procs[1..]);
      assert forall i | 0 < i < |procs| :: procs[i] == procs[1..][i - 1];
      assert forall i | 0 <= i < |procs| - 1 :: procs[1..][i] == procs[i + 1];
    }
  }

  lemma {:induction false} ActiveCountAtLeastTwo(procs: seq<Proc>)
    ensures ActiveCount(procs) >= 2 <==> TwoActive(procs)
    decreases |procs|
  {
    if procs != [] {
      var rest := procs[1..];
      ActiveCountPositive(rest);
      ActiveCountAtLeastTwo(rest);
      assert forall i | 0 < i < |procs| :: procs[i] == rest[i - 1];
      if TwoActive(rest) {
        var i, j :| 0 <= i < j < |rest| && rest[i].active && rest[j].active;
        assert procs[i + 1].active && procs[j + 1].active;
      }
      if procs[0].active && ActiveCount(rest) >= 1 {
        var j :| 0 <= j < |rest| && rest[j].active;
        assert procs[0].active && procs[j + 1].active;
      }
      if TwoActive(procs) {
        var i, j :| 0 <= i < j < |procs| && procs[i].active && procs[j].active;
        assert rest[j - 1].active;
        if i > 0 { assert rest[i - 1].active && rest[j - 1].active; }
      }
    }
  }

  /**
   * The timer takes the processor from the running process exactly when two
   * slots are active and another process can run; it goes to one that can.
   */
  lemma HandsOverExactlyWhen(k: State, regs: Regs)
    requires k.procs[0].Runnable()
    ensures var (r, resumed) := Tick(k, regs);
            && (r.pid != k.pid <==> TwoActive(k.procs) && exists q: Pid :: q != k.pid && k.procs[q].Runnable())
            && (r.pid == k.pid && !TwoActive(k.procs) ==> r == k && resumed == regs)
            && (r.pid != k.pid ==> k.procs[r.pid].Runnable() && resumed == k.procs[r.pid].regs)
  {
    ActiveCountAtLeastTwo(k.procs);
    var r := Tick(k, regs).0;
    if ActiveCount(k.procs) >= 2 {
      TurnsGoToRunnable(k, TimerTick(regs));
      assert r == Next(k, TimerTick(regs));
      forall q: Pid | q != k.pid && k.procs[q].Runnable() ensures r.pid != k.pid {
        SwitchCannotPass(k, TimerTick(regs), q);
      }
    }
  }

  /** So a process that stops itself goes on while only the kernel is active besides. */
  lemma StoppedProcessGoesOn(k: State, total: int, p: Pid, regs: Regs)
    requires Inv(k, total) && k.pid == p != 0 && forall q: Pid | q != 0 && q != p :: !k.procs[q].active
    ensures Tick(Next(k, DoStop(p)), regs) == (Next(k, DoStop(p)), regs)
  {
    var k' := Next(k, DoStop(p));
    HandsOverExactlyWhen(k', regs);
    assert !TwoActive(k'.procs);
  }

  /** Nothing of the process is left: its slot, its memory and its names. */
  ghost predicate Gone(k: State, q: Pid, base: uint32) {
    && k.procs[q].base == 0 && !k.procs[q].active && !k.procs[q].die
    && (forall e | e in Mem.Live(k.pool) :: e.start != base)
    && (forall e | e in k.names && e.active :: e.pid != q)
  }

  lemma {:induction false} ScanReleasesNames(k: State, q: Pid)
    requires k.procs[0].Runnable() && Reaped(k, Scan(k), q)
    ensures forall e | e in Scan(k).names && e.active :: e.pid != q
    decreases Dist(k.pid, 0)
  {
    var p := NextSlot(k.pid);
    DistSteps(k.pid);
    if p == q {
      ScanAddsNoNames(Reap(k, p).(pid := p));
    } else if k.procs[p].die {
      ScanReleasesNames(Reap(k, p).(pid := p), q);
    } else {
      ScanReleasesNames(k.(pid := p), q);
    }
  }

  lemma {:induction false} ScanAddsNoNames(k: State)
    requires k.procs[0].Runnable()
    ensures forall e | e in Scan(k).names && e.active :: e in k.names
    decreases Dist(k.pid, 0)
  {
    var p := NextSlot(k.pid);
    DistSteps(k.pid);
    if k.procs[p].die {
      ScanAddsNoNames(Reap(k, p).(pid := p));
    } else if !k.procs[p].active {
      ScanAddsNoNames(k.(pid := p));
    }
  }

  /** A switch that passes a dying process leaves nothing of it. */
  lemma SwitchReaps(k: State, total: int, s: Step, q: Pid)
    requires Inv(k, total) && Switches(k, s) && k.procs[q].die && Dist(k.pid, q) < Dist(k.pid, Next(k, s).pid)
    ensures Gone(Next(k, s), q, k.procs[q].base)
  {
    var saved := k.(procs := k.procs[k.pid := k.procs[k.pid].(regs := s.regs)]);
    SameBasesKeepInv(k, saved, total);
    assert Reaped(saved, Scan(saved), q);
    ScanReleasesNames(saved, q);
    forall e | e in Mem.Live(Scan(saved).pool) ensures e.start != k.procs[q].base {
      ScanFrees(saved, total, e);
    }
  }

  /** In the run `q` gets no turn, and after one of the steps nothing of it is left. */
  ghost predicate EndsWithoutTurn(k: State, steps: seq<Step>, q: Pid, base: uint32)
    requires Legal(k, steps)
    decreases |steps|
  {
    steps != [] &&
      var k' := Next(k, steps[0]);
      && (Switches(k, steps[0]) ==> k'.pid != q)
      && (Gone(k', q, base) || EndsWithoutTurn(k', steps[1..], q, base))
  }

  lemma DyingStays(k: State, total: int, s: Step, q: Pid)
    requires Inv(k, total) && Permitted(k, s) && k.procs[q].die
    requires Switches(k, s) ==> Dist(k.pid, Next(k, s).pid) <= Dist(k.pid, q)
    ensures Next(k, s).procs[q].die && Next(k, s).procs[q].base == k.procs[q].base
  {
  }

  lemma {:induction false} EndsWithinDist(k: State, total: int, steps: seq<Step>, q: Pid)
    requires Inv(k, total) && Legal(k, steps) && k.procs[q].die && SwitchCount(k, steps) >= Dist(k.pid, q)
    ensures EndsWithoutTurn(k, steps, q, k.procs[q].base)
    decreases |steps|
  {
    var k' := Next(k, steps[0]);
    StepKeepsInv(k, total, steps[0]);
    if !Switches(k, steps[0]) {
      OnlySwitchesMove(k, steps[0]);
      DyingStays(k, total, steps[0], q);
      EndsWithinDist(k', total, steps[1..], q);
    } else if Dist(k.pid, q) < Dist(k.pid, k'.pid) {
      SwitchReaps(k, total, steps[0], q);
    } else {
      TurnsGoToRunnable(k, steps[0]);
      DistSplit(k.pid, k'.pid, q);
      DyingStays(k, total, steps[0], q);
      EndsWithinDist(k', total, steps[1..], q);
    }
  }

  /**
   * A killed process gets no further turn, and within 16 switches its slot is
   * unused again, its memory is free and its names are released.
   */
  lemma KilledProcessEnds(k: State, total: int, q: Pid, steps: seq<Step>)
    requires Inv(k, total) && Permitted(k, DoKill(q))
    requires var k' := Next(k, DoKill(q)); Legal(k', steps) && SwitchCount(k', steps) >= PROCS_MAX
    ensures EndsWithoutTurn(Next(k, DoKill(q)), steps, q, k.procs[q].base)
  {
    StepKeepsInv(k, total, DoKill(q));
    EndsWithinDist(Next(k, DoKill(q)), total, steps, q);
  }

  // ----- the code

  class ProcessTable {
    const procs: array<Proc>       // z_procs
    var pid: int                   // z_pid
    const mem: Mem.Allocator
    const names: PidReg.Registry

    ghost predicate Valid()
      reads this, procs, mem, mem.blocks, names, names.entries
    {
      && procs.Length == PROCS_MAX && 0 <= pid < PROCS_MAX
      && mem.Valid() && names.entries.Length == PidReg.PIDREG_MAX
      && Inv(View(), mem.total)
    }

    ghost function View(): State
      reads this, procs, mem, mem.blocks, names, names.entries
      requires procs.Length == PROCS_MAX && 0 <= pid < PROCS_MAX && mem.Linked()
      requires names.entries.Length == PidReg.PIDREG_MAX
    {
      State(procs[..], pid, mem.View(), names.entries[..])
    }

    constructor (procs: array<Proc>, mem: Mem.Allocator, names: PidReg.Registry)
      ensures this.procs == procs && this.mem == mem && this.names == names && pid == 0
    {
      this.procs, this.mem, this.names, this.pid := procs, mem, names, 0;
    }

    /** k_proc_active_count */
    method CountActive() returns (count: nat)
      requires procs.Length == PROCS_MAX
      ensures count == ActiveCount(procs[..])
    {
      count := 0;
      for i := 0 to PROCS_MAX
        invariant ActiveCount(procs[..]) == count + ActiveCount(procs[i..])
      {
        assert procs[i..][1..] == procs[i + 1..];
        if procs[i].active {
          count := count + 1;
        }
      }
    }

    /** Frees a dying process (sw/os/kernel.c:393-402). */
    method ReapSlot(p: Pid)
      requires Wired()
      modifies procs, mem, mem.blocks, names.entries
      ensures Wired() && mem.total == old(mem.total)
      ensures View() == Reap(old(View()), p)
    {
      mem.Release(procs[p].base);
      names.Release(p);
      procs[p] := procs[p].Cleared();
    }

    ghost predicate Wired()
      reads this, procs, mem, mem.blocks, names, names.entries
    {
      && procs.Length == PROCS_MAX && 0 <= pid < PROCS_MAX
      && mem.Valid() && names.entries.Length == PidReg.PIDREG_MAX
    }

    /** The next_process loop. */
    method NextProcess()
      requires Wired() && View().procs[0].Runnable()
      modifies this`pid, procs, mem, mem.blocks, names.entries
      ensures Wired() && mem.total == old(mem.total)
      ensures View() == Scan(old(View()))
    {
      ghost var target := Scan(View());
      var found := false;
      while !found
        invariant Wired() && mem.total == old(mem.total)
        invariant View().procs[0].Runnable() && (if found then View() else Scan(View())) == target
        decreases !found, Dist(pid, 0)
      {
        found := VisitNext();
      }
    }

    /** Moves to the next slot and reaps it, skips it, or stops there. */
    method VisitNext() returns (found: bool)
      requires Wired() && View().procs[0].Runnable()
      modifies this`pid, procs, mem, mem.blocks, names.entries
      ensures Wired() && mem.total == old(mem.total) && pid == NextSlot(old(pid))
      ensures View().procs[0].Runnable() && (found || Dist(pid, 0) < Dist(old(pid), 0))
      ensures if found then View() == Scan(old(View())) else Scan(View()) == Scan(old(View()))
    {
      ScanMoves(View());
      pid := if pid + 1 >= PROCS_MAX then 0 else pid + 1;
      if procs[pid].die {
        ReapSlot(pid);
        found := false;
      } else {
        found := procs[pid].active;
      }
    }

    /** The KTIMER branch of z_kernel_entry; returns the registers to resume. */
    method OnTimer(regs: Regs) returns (ret: Regs)
      requires Valid()
      modifies this`pid, procs, mem, mem.blocks, names.entries
      ensures Valid() && mem.total == old(mem.total)
      ensures (View(), ret) == Tick(old(View()), regs)
    {
      TickKeepsInv(View(), mem.total, regs);
      var count := CountActive();
      if count < 2 {
        return regs;
      }
      procs[pid] := procs[pid].(regs := regs);
      NextProcess();
      ret := procs[pid].regs;
    }

    /** Gives an unused slot its memory and initial registers (sw/os/kernel.c:450-524). */
    method OccupySlot(p: Pid, memSize: uint32) returns (r: Pid)
      requires Wired()
      modifies procs, mem, mem.blocks
      ensures Wired() && mem.total == old(mem.total)
      ensures (View(), r) == Occupy(old(View()), p, memSize)
    {
      var memory := mem.Allocate(memSize);
      if memory == None {
        return 0;
      }
      procs[p] := procs[p].(base := memory.value, size := memSize, regs := InitialRegs(p, memSize));
      r := p;
    }

    /** The search loop of k_proc_create. */
    method FirstUnused() returns (p: int)
      requires procs.Length == PROCS_MAX
      ensures p == UnusedSlot(procs[..], 0)
    {
      p := 0;
      while p < PROCS_MAX && procs[p].base != 0
        invariant 0 <= p <= PROCS_MAX && UnusedSlot(procs[..], 0) == UnusedSlot(procs[..], p)
      {
        p := p + 1;
      }
    }

    /** A process with this much memory in the first unused slot. */
    method PlaceProcess(memSize: uint32) returns (p: int)
      requires Valid() && Mem.Aligned(memSize)
      modifies procs, mem, mem.blocks
      ensures Valid() && mem.total == old(mem.total)
      ensures (View(), p) == CreateSized(old(View()), memSize)
    {
      CreateSizedKeepsInv(View(), mem.total, memSize);
      p := FirstUnused();
      if p == PROCS_MAX {
        return 0;
      }
      p := OccupySlot(p, memSize);
    }

    /** k_proc_create */
    method CreateProcess(size: uint32, stackSize: uint32) returns (p: int)
      requires Valid()
      modifies procs, mem, mem.blocks
      ensures Valid() && mem.total == old(mem.total)
      ensures (View(), p) == Create(old(View()), size, stackSize)
    {
      Mem.AlignUpIsAligned(Wrap32(size + stackSize));
      p := PlaceProcess(Mem.AlignUp(Wrap32(size + stackSize)));
    }

    /**
     * k_proc_start, k_proc_stop and k_proc_kill set or clear one flag of any
     * slot; the table stays valid exactly when the step was permitted.
     */
    method Start(p: uint32)
      requires Valid() && p < PROCS_MAX
      modifies procs
      ensures Wired() && (Valid() <==> Permitted(old(View()), DoStart(p)))
      ensures View() == Next(old(View()), DoStart(p))
    {
      FlagStepKeepsInvExactlyWhen(View(), mem.total, DoStart(p));
      procs[p] := procs[p].(active := true);
    }

    method Stop(p: uint32)
      requires Valid() && p < PROCS_MAX
      modifies procs
      ensures Wired() && (Valid() <==> Permitted(old(View()), DoStop(p)))
      ensures View() == Next(old(View()), DoStop(p))
    {
      FlagStepKeepsInvExactlyWhen(View(), mem.total, DoStop(p));
      procs[p] := procs[p].(active := false);
    }

    method Kill(p: nat) returns (ok: bool)
      requires Valid()
      modifies procs
      ensures Wired() && (ok <==> p < PROCS_MAX)
      ensures Valid() <==> (ok ==> Permitted(old(View()), DoKill(p)))
      ensures View() == if ok then Next(old(View()), DoKill(p)) else old(View())
    {
      if p >= PROCS_MAX {
        return false;
      }
      FlagStepKeepsInvExactlyWhen(View(), mem.total, DoKill(p));
      procs[p] := procs[p].(die := true);
      ok := true;
    }
  }
}
