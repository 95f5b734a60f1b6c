/** Lazy initialisation of the capture hardware in `kvm/src/lib.rs`: any number
    of threads over the atomics KVM_STATE, ENCODER_MODE and `init_failures` and
    the lock KVM_LOCK. One step is one atomic access or one hardware call. */
module KvmInit {
  import opened Wrappers

  datatype InitState = NotStarted | Initializing | Ready | InitFailed

  datatype EncoderMode = NoMode | Mjpeg | H264

  datatype KvmError =
    | BufferFull | VencError | NotExist | HdmiResError | UnsupportedRes | Retrieving | ModifyingRes
    | Unknown(code: int) | NotInitialized | LibraryNotLoaded

  datatype FrameType = Sps | Pps | IFrame | PFrame | OtherFrame

  datatype KvmFrame = KvmFrame(len: nat, frameType: FrameType)

  const MAX_INIT_FAILURES := 5

  type Tid = nat

  /** What the hardware sees, and the Ok(true) returns of `ensure_initialized`. */
  datatype HwEvent =
    | Init(who: Tid)
    | Deinit(who: Tid)
    | Opened(who: Tid)
    | Read(who: Tid, kind: EncoderMode, mode: EncoderMode, locked: bool, state: InitState)

  datatype Pc =
    | Idle
      // ensure_initialized, on behalf of a read of `kind`
    | EnsureEntry(kind: EncoderMode)
    | EnsureWaiting(kind: EncoderMode)
    | EnsureFailed(kind: EncoderMode)
    | InitWantsLock(kind: EncoderMode)
    | InitRecheck(kind: EncoderMode)
    | InitLibrary(kind: EncoderMode)
    | InitGivingUp
    | InitMarking(kind: EncoderMode)
    | InitCalling(kind: EncoderMode)
    | InitPublishing(kind: EncoderMode)
    | InitClearing(kind: EncoderMode)
      // get_mjpeg and get_h264 after that
    | ReadWantsLock(kind: EncoderMode)
    | ReadMode(kind: EncoderMode)
    | ReadSwitching(kind: EncoderMode)
    | ReadCalling(kind: EncoderMode)
    | ReadCounting(ret: int)
      // reset_init_state
    | ResetWantsLock
    | ResetTesting
    | ResetCalling
    | ResetState
    | ResetMode
    | ResetFailures
      // deinit
    | DeinitWantsLock
    | DeinitTesting
    | DeinitCalling
    | DeinitState
    | DeinitMode

  /** The atomics, the holder of the lock, and what the hardware has seen. */
  datatype Memory = Memory(kvmState: InitState, mode: EncoderMode, failures: nat, holder: Option<Tid>, log: seq<HwEvent>)

  datatype State = State(mem: Memory, pcs: map<Tid, Pc>)

  function Initial(): State { State(Memory(NotStarted, NoMode, 0, None, []), map[]) }

  function PcOf(s: State, t: Tid): Pc { if t in s.pcs then s.pcs[t] else Idle }

  /** What the world answers: is the library loaded, and what a read returns: a
      code, and a buffer that may be missing. */
  datatype World = World(loaded: bool, ret: int, noData: bool, size: nat)

  datatype Operation = Get(kind: EncoderMode) | Reset | Shutdown

  datatype Step = Start(t: Tid, op: Operation) | Advance(t: Tid, world: World)

  predicate WantsLock(pc: Pc) { pc.InitWantsLock? || pc.ReadWantsLock? || pc.ResetWantsLock? || pc.DeinitWantsLock? }

  predicate Unlocked(pc: Pc) {
    pc.Idle? || pc.EnsureEntry? || pc.EnsureWaiting? || pc.EnsureFailed? || WantsLock(pc)
  }

  predicate Enabled(s: State, st: Step) {
    match st
    case Start(t, op) => PcOf(s, t).Idle?
    case Advance(t, _) => !PcOf(s, t).Idle? && (WantsLock(PcOf(s, t)) ==> s.mem.holder.None?)
  }

  /** A thread's step: the memory after it, and where the thread is then. */
  datatype Moved = Moved(mem: Memory, pc: Pc)

  function Acquire(m: Memory, t: Tid, pc: Pc): Moved { Moved(m.(holder := Some(t)), pc) }

  /** Dropping the guard at the end of the locked region. */
  function Release(m: Memory, pc: Pc): Moved { Moved(m.(holder := None), pc) }

  function Entry(op: Operation): Pc {
    match op
    case Get(kind) => EnsureEntry(kind)
    case Reset => ResetWantsLock
    case Shutdown => DeinitWantsLock
  }

  function FailuresAfter(failures: nat, ret: int): nat {
    if ret == -7 || ret == -2 then (failures + 1) % 256 else if ret < 0 then failures else 0
  }

  function ErrorOf(ret: int): KvmError {
    match ret
    case -1 => NotExist
    case -2 => VencError
    case -3 => BufferFull
    case -4 => ModifyingRes
    case -5 => Retrieving
    case -6 => UnsupportedRes
    case -7 => HdmiResError
    case x => Unknown(x)
  }

  function FrameTypeOf(ret: int): FrameType {
    match ret
    case 1 => Sps
    case 2 => Pps
    case 3 => IFrame
    case 4 => PFrame
    case _ => OtherFrame
  }

  /** What a reader is told: a frame only for a non-negative code and data. */
  function ReplyOf(world: World): Result<KvmFrame, KvmError> {
    if world.ret < 0 then Err(ErrorOf(world.ret))
    else if world.noData || world.size == 0 then Err(NotExist)
    else Ok(KvmFrame(world.size, FrameTypeOf(world.ret)))
  }

  /** A frame is handed out exactly for data with a non-negative code, with the
      length of the data and the type the code names; a missing image is reported
      as NotExist whether the code or the buffer says so, every other error has
      one code, and the backoff counts those of HDMI signal and encoder. */
  lemma {:induction false} RepliesAreExact(world: World)
    ensures ReplyOf(world).Ok? <==> world.ret >= 0 && !world.noData && world.size > 0
    ensures ReplyOf(world).Ok? ==>
              var frame := ReplyOf(world).value;
              && frame.len == world.size
              && (frame.frameType.Sps? <==> world.ret == 1) && (frame.frameType.Pps? <==> world.ret == 2)
              && (frame.frameType.IFrame? <==> world.ret == 3) && (frame.frameType.PFrame? <==> world.ret == 4)
    ensures ReplyOf(world) == Err(NotExist) <==> world.ret == -1 || (world.ret >= 0 && (world.noData || world.size == 0))
    ensures ReplyOf(world) == Err(VencError) <==> world.ret == -2
    ensures ReplyOf(world) == Err(BufferFull) <==> world.ret == -3
    ensures ReplyOf(world) == Err(ModifyingRes) <==> world.ret == -4
    ensures ReplyOf(world) == Err(Retrieving) <==> world.ret == -5
    ensures ReplyOf(world) == Err(UnsupportedRes) <==> world.ret == -6
    ensures ReplyOf(world) == Err(HdmiResError) <==> world.ret == -7
    ensures forall code :: ReplyOf(world) == Err(Unknown(code)) <==> world.ret == code < -7
    ensures FailuresAfter(0, world.ret) == 1 <==> ReplyOf(world) == Err(HdmiResError) || ReplyOf(world) == Err(VencError)
  {}

  /** The failure count after reads that end with these codes. */
  function FailuresAlong(rets: seq<int>, n: nat): nat
    requires n <= |rets|
  {
    if n == 0 then 0 else FailuresAfter(FailuresAlong(rets, n - 1), rets[n - 1])
  }

  /** How many of the codes from `from` to n are counted as failures. */
  function Counted(rets: seq<int>, from: nat, n: nat): nat
    requires from <= n <= |rets|
  {
    if n == from then 0 else Counted(rets, from, n - 1) + if rets[n - 1] in {-7, -2} then 1 else 0
  }

  /** The failure count is that of the signal and encoder errors since the last
      read that did not fail, modulo 256; other errors neither count nor reset it. */
  lemma {:induction false} FailuresCountSinceSuccess(rets: seq<int>, from: nat, n: nat)
    requires from <= n <= |rets| && (from == 0 || rets[from - 1] >= 0) && forall i :: from <= i < n ==> rets[i] < 0
    ensures FailuresAlong(rets, n) == Counted(rets, from, n) % 256
  {
    if n == from {
    } else {
      FailuresCountSinceSuccess(rets, from, n - 1);
    }
  }

  function Unguarded(m: Memory, t: Tid, pc: Pc): Moved
    requires Unlocked(pc)
  {
    match pc
    case EnsureEntry(kind) =>
      (match m.kvmState
       case Ready => Moved(m, ReadWantsLock(kind))
       case Initializing => Moved(m, EnsureWaiting(kind))
       case InitFailed => Moved(m, EnsureFailed(kind))
       case NotStarted => Moved(m, InitWantsLock(kind)))
    case EnsureWaiting(kind) => Moved(m, if m.kvmState.Ready? then ReadWantsLock(kind) else Idle)
    case EnsureFailed(kind) => Moved(m, if m.failures >= MAX_INIT_FAILURES then Idle else InitWantsLock(kind))
    case InitWantsLock(kind) => Acquire(m, t, InitRecheck(kind))
    case ReadWantsLock(kind) => Acquire(m, t, ReadMode(kind))
    case ResetWantsLock => Acquire(m, t, ResetTesting)
    case DeinitWantsLock => Acquire(m, t, DeinitTesting)
    case Idle => Moved(m, Idle)
  }

  predicate InInit(pc: Pc) {
    pc.InitRecheck? || pc.InitLibrary? || pc.InitGivingUp? || pc.InitMarking? || pc.InitCalling? || pc.InitPublishing? || pc.InitClearing?
  }

  function InitGuarded(m: Memory, t: Tid, pc: Pc, loaded: bool): Moved
    requires InInit(pc)
  {
    match pc
    case InitRecheck(kind) => if m.kvmState.Ready? then Release(m, ReadWantsLock(kind)) else Moved(m, InitLibrary(kind))
    case InitLibrary(kind) => Moved(m, if loaded then InitMarking(kind) else InitGivingUp)
    case InitGivingUp => Release(m.(kvmState := InitFailed), Idle)
    case InitMarking(kind) => Moved(m.(kvmState := Initializing), InitCalling(kind))
    case InitCalling(kind) => Moved(m.(log := m.log + [Init(t)]), InitPublishing(kind))
    case InitPublishing(kind) => Moved(m.(kvmState := Ready), InitClearing(kind))
    case InitClearing(kind) => Release(m.(failures := 0, log := m.log + [Opened(t)]), ReadWantsLock(kind))
  }

  predicate InRead(pc: Pc) { pc.ReadMode? || pc.ReadSwitching? || pc.ReadCalling? || pc.ReadCounting? }

  function ReadGuarded(m: Memory, t: Tid, pc: Pc, ret: int): Moved
    requires InRead(pc)
  {
    match pc
    case ReadMode(kind) => Moved(m, if m.mode == kind then ReadCalling(kind) else ReadSwitching(kind))
    case ReadSwitching(kind) => Moved(m.(mode := kind), ReadCalling(kind))
    case ReadCalling(kind) => Moved(m.(log := m.log + [ReadNow(m, t, kind)]), ReadCounting(ret))
    case ReadCounting(got) => Release(m.(failures := FailuresAfter(m.failures, got)), Idle)
  }

  function ReadNow(m: Memory, t: Tid, kind: EncoderMode): HwEvent {
    Read(t, kind, m.mode, m.holder == Some(t), m.kvmState)
  }

  predicate InReset(pc: Pc) {
    pc.ResetTesting? || pc.ResetCalling? || pc.ResetState? || pc.ResetMode? || pc.ResetFailures?
  }

  function ResetGuarded(m: Memory, t: Tid, pc: Pc): Moved
    requires InReset(pc)
  {
    match pc
    case ResetTesting => Moved(m, if m.kvmState.Ready? then ResetCalling else ResetState)
    case ResetCalling => Moved(m.(log := m.log + [Deinit(t)]), ResetState)
    case ResetState => Moved(m.(kvmState := NotStarted), ResetMode)
    case ResetMode => Moved(m.(mode := NoMode), ResetFailures)
    case ResetFailures => Release(m.(failures := 0), Idle)
  }

  predicate InDeinit(pc: Pc) { pc.DeinitTesting? || pc.DeinitCalling? || pc.DeinitState? || pc.DeinitMode? }

  function DeinitGuarded(m: Memory, t: Tid, pc: Pc): Moved
    requires InDeinit(pc)
  {
    match pc
    case DeinitTesting => if m.kvmState.Ready? then Moved(m, DeinitCalling) else Release(m, Idle)
    case DeinitCalling => Moved(m.(log := m.log + [Deinit(t)]), DeinitState)
    case DeinitState => Moved(m.(kvmState := NotStarted), DeinitMode)
    case DeinitMode => Release(m.(mode := NoMode), Idle)
  }

  function Guarded(m: Memory, t: Tid, pc: Pc, world: World): Moved
    requires !Unlocked(pc)
  {
    if InInit(pc) then InitGuarded(m, t, pc, world.loaded)
    else if InRead(pc) then ReadGuarded(m, t, pc, world.ret)
    else if InReset(pc) then ResetGuarded(m, t, pc)
    else DeinitGuarded(m, t, pc)
  }

  function Move(m: Memory, t: Tid, pc: Pc, world: World): Moved {
    if Unlocked(pc) then Unguarded(m, t, pc) else Guarded(m, t, pc, world)
  }

  /** A step that is not enabled does nothing. */
  function Next(s: State, st: Step): State {
    if !Enabled(s, st) then s
    else
      match st
      case Start(t, op) => State(s.mem, s.pcs[t := Entry(op)])
      case Advance(t, world) =>
        var moved := Move(s.mem, t, PcOf(s, t), world);
        State(moved.mem, s.pcs[t := moved.pc])
  }

  function Run(s: State, steps: seq<Step>): State
    decreases |steps|
  {
    if steps == [] then s else Next(Run(s, steps[..|steps| - 1]), steps[|steps| - 1])
  }

  // ---- what a log may look like ----

  function Up(log: seq<HwEvent>): bool {
    if log == [] then false
    else
      var e := log[|log| - 1];
      if e.Init? then true else if e.Deinit? then false else Up(log[..|log| - 1])
  }

  /** Who has called `kvmv_init` and not yet been told Ok(true). */
  function Pending(log: seq<HwEvent>): Option<Tid> {
    if log == [] then None
    else
      var e := log[|log| - 1];
      if e.Init? then Some(e.who) else if e.Opened? then None else Pending(log[..|log| - 1])
  }

  predicate Admits(log: seq<HwEvent>, e: HwEvent) {
    match e
    case Init(t) => !Up(log) && Pending(log).None?
    case Deinit(t) => Up(log)
    case Opened(t) => Pending(log) == Some(t)
    case Read(_, kind, mode, locked, state) => locked && mode == kind && (Up(log) <==> state.Ready?)
  }

  predicate WellFormed(log: seq<HwEvent>) {
    log == [] || (WellFormed(log[..|log| - 1]) && Admits(log[..|log| - 1], log[|log| - 1]))
  }

  // ---- the invariant ----

  function HolderPc(s: State): Pc {
    if s.mem.holder.Some? then PcOf(s, s.mem.holder.value) else Idle
  }

  /** What the holder of the lock (Idle: nobody) relies on. */
  predicate Shared(pc: Pc, kvmState: InitState, mode: EncoderMode, up: bool) {
    && (kvmState.Initializing? <==> pc.InitCalling? || pc.InitPublishing?)
    && (up <==> pc.InitPublishing? || (kvmState.Ready? && !pc.ResetState? && !pc.DeinitState?))
    && (pc.InitLibrary? || pc.InitGivingUp? || pc.InitMarking? ==> !kvmState.Ready?)
    && (pc.InitClearing? || pc.ResetCalling? || pc.DeinitCalling? || pc.DeinitState? ==> kvmState.Ready?)
    && (pc.ResetMode? || pc.ResetFailures? || pc.DeinitMode? ==> kvmState.NotStarted?)
    && (pc.ReadCalling? ==> mode == pc.kind)
  }

  predicate InitInFlight(pc: Pc) { pc.InitPublishing? || pc.InitClearing? }

  /** The lock excludes: a thread is in a locked region iff it holds the lock. */
  predicate Excludes(s: State, t: Tid) {
    !Unlocked(PcOf(s, t)) <==> s.mem.holder == Some(t)
  }

  /** The memory is as the holder of the lock, at pc, expects it. */
  predicate Agrees(m: Memory, pc: Pc) {
    && Shared(pc, m.kvmState, m.mode, Up(m.log))
    && Pending(m.log) == (if InitInFlight(pc) then m.holder else None)
    && WellFormed(m.log)
  }

  ghost predicate Inv(s: State) { (forall t :: Excludes(s, t)) && Agrees(s.mem, HolderPc(s)) }

  /** Thread t, which held the lock, still does, or has released it. */
  predicate Handed(t: Tid, moved: Moved) {
    if moved.mem.holder.None? then Unlocked(moved.pc) && Agrees(moved.mem, Idle)
    else moved.mem.holder == Some(t) && !Unlocked(moved.pc) && Agrees(moved.mem, moved.pc)
  }

  lemma {:induction false} Logged(log: seq<HwEvent>, e: HwEvent)
    ensures var log' := log + [e];
            && Up(log') == (if e.Init? then true else if e.Deinit? then false else Up(log))
            && Pending(log') == (if e.Init? then Some(e.who) else if e.Opened? then None else Pending(log))
            && (WellFormed(log') <==> WellFormed(log) && Admits(log, e))
  {
    assert (log + [e])[..|log|] == log;
  }

  lemma {:induction false} UnguardedKeepsInv(s: State, t: Tid, world: World)
    requires Inv(s) && Enabled(s, Advance(t, world)) && Unlocked(PcOf(s, t))
    ensures Inv(Next(s, Advance(t, world)))
  {
    var s' := Next(s, Advance(t, world));
    hide Up, Pending, WellFormed;
    assert Excludes(s, t);
    forall x ensures Excludes(s', x) { assert Excludes(s, x); }
  }

  lemma {:induction false} InitKeepsAgrees(m: Memory, t: Tid, pc: Pc, loaded: bool)
    requires Agrees(m, pc) && m.holder == Some(t) && InInit(pc)
    ensures Handed(t, InitGuarded(m, t, pc, loaded))
  {
    hide Up, Pending, WellFormed;
    if pc.InitCalling? { Logged(m.log, Init(t)); }
    if pc.InitClearing? { Logged(m.log, Opened(t)); }
  }

  lemma {:induction false} ReadKeepsAgrees(m: Memory, t: Tid, pc: Pc, ret: int)
    requires Agrees(m, pc) && m.holder == Some(t) && InRead(pc)
    ensures Handed(t, ReadGuarded(m, t, pc, ret))
  {
    hide Up, Pending, WellFormed;
    if pc.ReadCalling? { Logged(m.log, ReadNow(m, t, pc.kind)); }
  }

  lemma {:induction false} ResetKeepsAgrees(m: Memory, t: Tid, pc: Pc)
    requires Agrees(m, pc) && m.holder == Some(t) && InReset(pc)
    ensures Handed(t, ResetGuarded(m, t, pc))
  {
    hide Up, Pending, WellFormed;
    if pc.ResetCalling? { Logged(m.log, Deinit(t)); }
  }

  lemma {:induction false} DeinitKeepsAgrees(m: Memory, t: Tid, pc: Pc)
    requires Agrees(m, pc) && m.holder == Some(t) && InDeinit(pc)
    ensures Handed(t, DeinitGuarded(m, t, pc))
  {
    hide Up, Pending, WellFormed;
    if pc.DeinitCalling? { Logged(m.log, Deinit(t)); }
  }

  lemma {:induction false} GuardedKeepsAgrees(m: Memory, t: Tid, pc: Pc, world: World)
    requires Agrees(m, pc) && m.holder == Some(t) && !Unlocked(pc)
    ensures Handed(t, Guarded(m, t, pc, world))
  {
    assert InInit(pc) || InRead(pc) || InReset(pc) || InDeinit(pc);
    hide Agrees, InitGuarded, ReadGuarded, ResetGuarded, DeinitGuarded, InInit, InRead, InReset, InDeinit, Unlocked, Handed;
    if InInit(pc) {
      InitKeepsAgrees(m, t, pc, world.loaded);
    } else if InRead(pc) {
      ReadKeepsAgrees(m, t, pc, world.ret);
    } else if InReset(pc) {
      ResetKeepsAgrees(m, t, pc);
    } else {
      DeinitKeepsAgrees(m, t, pc);
    }
  }

  lemma {:induction false} HandedKeepsInv(s: State, t: Tid, moved: Moved)
    requires Inv(s) && s.mem.holder == Some(t) && Handed(t, moved)
    ensures Inv(State(moved.mem, s.pcs[t := moved.pc]))
  {
    var s' := State(moved.mem, s.pcs[t := moved.pc]);
    hide Agrees, Unlocked;
    forall x ensures Excludes(s', x) { assert Excludes(s, x); }
  }

  lemma {:induction false} NextKeepsInv(s: State, st: Step)
    requires Inv(s)
    ensures Inv(Next(s, st))
  {
    if Enabled(s, st) {
      match st {
        case Start(t, op) =>
          var s' := State(s.mem, s.pcs[t := Entry(op)]);
          assert Excludes(s, t);
          forall x ensures Excludes(s', x) { assert Excludes(s, x); }
          hide Agrees;
        case Advance(t, world) =>
          if Unlocked(PcOf(s, t)) {
            UnguardedKeepsInv(s, t, world);
          } else {
            assert Excludes(s, t);
            GuardedKeepsAgrees(s.mem, t, PcOf(s, t), world);
            HandedKeepsInv(s, t, Guarded(s.mem, t, PcOf(s, t), world));
          }
      }
    }
  }

  lemma {:induction false} InvAlongRun(steps: seq<Step>)
    ensures Inv(Run(Initial(), steps))
    decreases |steps|
  {
    if steps == [] {
    } else {
      InvAlongRun(steps[..|steps| - 1]);
      hide Inv;
      NextKeepsInv(Run(Initial(), steps[..|steps| - 1]), steps[|steps| - 1]);
    }
  }

  // ---- what holds along every run ----

  predicate IsPower(e: HwEvent) { e.Init? || e.Deinit? }

  predicate IsOpening(e: HwEvent) { e.Init? || e.Opened? }

  /** The calls of `kvmv_init` and `kvmv_deinit`, in order. */
  function PowerCalls(log: seq<HwEvent>): seq<HwEvent> {
    if log == [] then []
    else PowerCalls(log[..|log| - 1]) + if IsPower(log[|log| - 1]) then [log[|log| - 1]] else []
  }

  /** The calls of `kvmv_init` and the returns of Ok(true), in order. */
  function Openings(log: seq<HwEvent>): seq<HwEvent> {
    if log == [] then []
    else Openings(log[..|log| - 1]) + if IsOpening(log[|log| - 1]) then [log[|log| - 1]] else []
  }

  predicate Alternates(calls: seq<HwEvent>, i: nat)
    requires i < |calls|
  {
    if i % 2 == 0 then calls[i].Init? else calls[i].Deinit?
  }

  predicate Pairs(calls: seq<HwEvent>, i: nat)
    requires i < |calls|
  {
    if i % 2 == 0 then calls[i].Init? else calls[i] == Opened(calls[i - 1].who)
  }

  lemma {:induction false} WellFormedAlternates(log: seq<HwEvent>)
    requires WellFormed(log)
    ensures forall i :: 0 <= i < |PowerCalls(log)| ==> Alternates(PowerCalls(log), i)
    ensures Up(log) <==> |PowerCalls(log)| % 2 == 1
  {
    if log == [] {
    } else {
      WellFormedAlternates(log[..|log| - 1]);
      var before, calls := PowerCalls(log[..|log| - 1]), PowerCalls(log);
      forall i | 0 <= i < |calls| ensures Alternates(calls, i) {
        assert i < |before| ==> Alternates(before, i);
      }
    }
  }

  lemma {:induction false} WellFormedPairs(log: seq<HwEvent>)
    requires WellFormed(log)
    ensures forall i :: 0 <= i < |Openings(log)| ==> Pairs(Openings(log), i)
    ensures Pending(log) == var calls := Openings(log); if |calls| % 2 == 1 then Some(calls[|calls| - 1].who) else None
  {
    if log == [] {
    } else {
      WellFormedPairs(log[..|log| - 1]);
      var before, calls := Openings(log[..|log| - 1]), Openings(log);
      forall i | 0 <= i < |calls| ensures Pairs(calls, i) {
        assert i < |before| ==> Pairs(before, i);
        assert i == |before| && i % 2 == 1 ==> calls[i - 1] == before[i - 1];
      }
    }
  }

  /** In every run `kvmv_init` and `kvmv_deinit` strictly alternate, starting with init. */
  lemma {:induction false} PowerAlternates(steps: seq<Step>, i: nat)
    requires i < |PowerCalls(Run(Initial(), steps).mem.log)|
    ensures Alternates(PowerCalls(Run(Initial(), steps).mem.log), i)
  {
    InvAlongRun(steps);
    WellFormedAlternates(Run(Initial(), steps).mem.log);
  }

  /** In every run each `kvmv_init` is followed, before the next one, by exactly
      one Ok(true), returned to the thread that made the call; only the last
      may still be under way. */
  lemma {:induction false} EachInitIsReportedOnce(steps: seq<Step>, i: nat)
    requires i < |Openings(Run(Initial(), steps).mem.log)|
    ensures Pairs(Openings(Run(Initial(), steps).mem.log), i)
  {
    InvAlongRun(steps);
    WellFormedPairs(Run(Initial(), steps).mem.log);
  }

  /** `Initializing` is visible only while the initialiser holds the lock. */
  lemma {:induction false} InitializingIsLocked(steps: seq<Step>)
    ensures var s := Run(Initial(), steps);
            s.mem.kvmState.Initializing? <==>
            s.mem.holder.Some? && (PcOf(s, s.mem.holder.value).InitCalling? || PcOf(s, s.mem.holder.value).InitPublishing?)
  {
    InvAlongRun(steps);
  }

  /** The lock excludes in every run. */
  lemma {:induction false} AtMostOneInside(steps: seq<Step>, t: Tid, u: Tid)
    ensures var s := Run(Initial(), steps);
            !Unlocked(PcOf(s, t)) && !Unlocked(PcOf(s, u)) ==> t == u
  {
    InvAlongRun(steps);
    var s := Run(Initial(), steps);
    assert Excludes(s, t) && Excludes(s, u);
  }

  lemma {:induction false} WellFormedPrefix(log: seq<HwEvent>, i: nat)
    requires WellFormed(log) && i < |log|
    ensures Admits(log[..i], log[i])
    decreases |log|
  {
    if i < |log| - 1 {
      WellFormedPrefix(log[..|log| - 1], i);
      assert log[..|log| - 1][..i] == log[..i];
    }
  }

  /** Every image read happens under the lock with ENCODER_MODE equal to the
      kind being read; the hardware is up at the read exactly when KVM_STATE
      is Ready then, which `get_mjpeg` and `get_h264` do not look at again. */
  lemma {:induction false} ReadsAreLocked(steps: seq<Step>, i: nat)
    requires i < |Run(Initial(), steps).mem.log| && Run(Initial(), steps).mem.log[i].Read?
    ensures var log := Run(Initial(), steps).mem.log;
            && log[i].locked && log[i].mode == log[i].kind
            && (Up(log[..i]) <==> log[i].state.Ready?)
  {
    InvAlongRun(steps);
    WellFormedPrefix(Run(Initial(), steps).mem.log, i);
  }

  /** From every reachable state the holder of the lock can step, and when
      nobody holds it every thread that is not idle can. */
  lemma {:induction false} NoDeadlock(steps: seq<Step>, t: Tid, world: World)
    ensures var s := Run(Initial(), steps);
            && (s.mem.holder == Some(t) ==> Enabled(s, Advance(t, world)))
            && (s.mem.holder.None? && !PcOf(s, t).Idle? ==> Enabled(s, Advance(t, world)))
  {
    InvAlongRun(steps);
    assert Excludes(Run(Initial(), steps), t);
  }

  /** How many more steps a locked region can take. */
  function StepsInside(pc: Pc): nat {
    match pc
    case InitRecheck(_) => 6
    case InitLibrary(_) => 5
    case InitMarking(_) => 4
    case InitCalling(_) => 3
    case InitPublishing(_) => 2
    case InitGivingUp => 1
    case InitClearing(_) => 1
    case ReadMode(_) => 4
    case ReadSwitching(_) => 3
    case ReadCalling(_) => 2
    case ReadCounting(_) => 1
    case ResetTesting => 5
    case ResetCalling => 4
    case ResetState => 3
    case ResetMode => 2
    case ResetFailures => 1
    case DeinitTesting => 4
    case DeinitCalling => 3
    case DeinitState => 2
    case DeinitMode => 1
    case _ => 0
  }

  /** Each step of the holder brings the release closer: the lock is always freed. */
  lemma {:induction false} HolderFinishes(m: Memory, t: Tid, pc: Pc, world: World)
    requires m.holder == Some(t) && !Unlocked(pc)
    ensures var moved := Move(m, t, pc, world);
            if moved.mem.holder.None? then Unlocked(moved.pc)
            else moved.mem.holder == Some(t) && !Unlocked(moved.pc) && StepsInside(moved.pc) < StepsInside(pc)
  {}

  // ---- one thread running alone ----

  /** n steps of thread t from pc, nobody else moving. */
  function Solo(m: Memory, t: Tid, pc: Pc, world: World, n: nat): Moved
    decreases n
  {
    if n == 0 then Moved(m, pc)
    else
      var moved := Move(m, t, pc, world);
      Solo(moved.mem, t, moved.pc, world, n - 1)
  }

  ghost predicate Reaches(m: Memory, t: Tid, pc: Pc, world: World, moved: Moved) {
    exists n: nat :: Solo(m, t, pc, world, n) == moved
  }

  lemma {:induction false} Arrived(m: Memory, t: Tid, pc: Pc, world: World)
    ensures Reaches(m, t, pc, world, Moved(m, pc))
  {
    assert Solo(m, t, pc, world, 0) == Moved(m, pc);
  }

  lemma {:induction false} StepReaches(m: Memory, t: Tid, pc: Pc, world: World, moved: Moved)
    requires Reaches(Move(m, t, pc, world).mem, t, Move(m, t, pc, world).pc, world, moved)
    ensures Reaches(m, t, pc, world, moved)
  {
    var next := Move(m, t, pc, world);
    var n: nat :| Solo(next.mem, t, next.pc, world, n) == moved;
    assert Solo(m, t, pc, world, n + 1) == moved;
  }

  lemma {:induction false} ResetReaches(m: Memory, t: Tid, world: World)
    requires m.holder.None?
    ensures var log := m.log + if m.kvmState.Ready? then [Deinit(t)] else [];
            Reaches(m, t, ResetWantsLock, world, Moved(Memory(NotStarted, NoMode, 0, None, log), Idle))
  {
    hide Reaches;
    var log := m.log + if m.kvmState.Ready? then [Deinit(t)] else [];
    var last := Memory(NotStarted, NoMode, 0, None, log);
    var end := Moved(last, Idle);
    Arrived(last, t, Idle, world);
    StepReaches(Memory(NotStarted, NoMode, m.failures, Some(t), log), t, ResetFailures, world, end);
    StepReaches(Memory(NotStarted, m.mode, m.failures, Some(t), log), t, ResetMode, world, end);
    StepReaches(m.(holder := Some(t), log := log), t, ResetState, world, end);
    if m.kvmState.Ready? {
      StepReaches(m.(holder := Some(t)), t, ResetCalling, world, end);
    } else {
      assert log == m.log;
    }
    StepReaches(m.(holder := Some(t)), t, ResetTesting, world, end);
    StepReaches(m, t, ResetWantsLock, world, end);
  }

  lemma {:induction false} DeinitReaches(m: Memory, t: Tid, world: World)
    requires m.holder.None?
    ensures var last := if m.kvmState.Ready? then m.(kvmState := NotStarted, mode := NoMode, log := m.log + [Deinit(t)]) else m;
            Reaches(m, t, DeinitWantsLock, world, Moved(last, Idle))
  {
    hide Reaches;
    var log := m.log + [Deinit(t)];
    var last := if m.kvmState.Ready? then m.(kvmState := NotStarted, mode := NoMode, log := m.log + [Deinit(t)]) else m;
    var end := Moved(last, Idle);
    Arrived(last, t, Idle, world);
    if m.kvmState.Ready? {
      StepReaches(m.(kvmState := NotStarted, holder := Some(t), log := log), t, DeinitMode, world, end);
      StepReaches(m.(holder := Some(t), log := log), t, DeinitState, world, end);
      StepReaches(m.(holder := Some(t)), t, DeinitCalling, world, end);
    }
    StepReaches(m.(holder := Some(t)), t, DeinitTesting, world, end);
    StepReaches(m, t, DeinitWantsLock, world, end);
  }

  /** What `ensure_initialized` does when nobody else moves. */
  function EnsuredAlone(m: Memory, t: Tid, world: World): (Memory, Result<bool, KvmError>) {
    if m.kvmState.Ready? then (m, Ok(false))
    else if m.kvmState.Initializing? || (m.kvmState.InitFailed? && m.failures >= MAX_INIT_FAILURES) then (m, Err(NotInitialized))
    else if !world.loaded then (m.(kvmState := InitFailed), Err(LibraryNotLoaded))
    else (m.(kvmState := Ready, failures := 0, log := m.log + [Init(t)] + [Opened(t)]), Ok(true))
  }

  /** A call on its own tells whether it has opened the hardware: Ok(true) exactly when
      it logs an initialisation, Ok(false) exactly when the hardware was up, and either
      way it is up then; a new instance has counted no failures. */
  lemma {:induction false} TrueMeansOpened(m: Memory, t: Tid, world: World)
    ensures var (last, r) := EnsuredAlone(m, t, world);
            && (r == Ok(true) <==> last.log == m.log + [Init(t), Opened(t)]) && (r == Ok(false) <==> m.kvmState.Ready?)
            && (r != Ok(true) ==> last.log == m.log) && (r.Ok? ==> last.kvmState.Ready?)
    ensures Initial().mem == Memory(NotStarted, NoMode, FailuresAlong([], 0), None, [])
  {
    assert m.log + [Init(t)] + [Opened(t)] == m.log + [Init(t), Opened(t)];
    assert m.log != m.log + [Init(t), Opened(t)] by { assert |m.log| != |m.log + [Init(t), Opened(t)]|; }
  }

  lemma {:induction false} InitReaches(m: Memory, t: Tid, kind: EncoderMode, world: World)
    requires m.holder.None? && !m.kvmState.Ready?
    ensures var last := if world.loaded then m.(kvmState := Ready, failures := 0, log := m.log + [Init(t)] + [Opened(t)])
                        else m.(kvmState := InitFailed);
            Reaches(m, t, InitWantsLock(kind), world, Moved(last, if world.loaded then ReadWantsLock(kind) else Idle))
  {
    hide Reaches;
    var held := m.(holder := Some(t));
    if world.loaded {
      var log := m.log + [Init(t)];
      var last := m.(kvmState := Ready, failures := 0, log := log + [Opened(t)]);
      var end := Moved(last, ReadWantsLock(kind));
      Arrived(last, t, ReadWantsLock(kind), world);
      StepReaches(held.(kvmState := Ready, log := log), t, InitClearing(kind), world, end);
      StepReaches(held.(kvmState := Initializing, log := log), t, InitPublishing(kind), world, end);
      StepReaches(held.(kvmState := Initializing), t, InitCalling(kind), world, end);
      StepReaches(held, t, InitMarking(kind), world, end);
      StepReaches(held, t, InitLibrary(kind), world, end);
      StepReaches(held, t, InitRecheck(kind), world, end);
      StepReaches(m, t, InitWantsLock(kind), world, end);
    } else {
      var last := m.(kvmState := InitFailed);
      var end := Moved(last, Idle);
      Arrived(last, t, Idle, world);
      StepReaches(held, t, InitGivingUp, world, end);
      StepReaches(held, t, InitLibrary(kind), world, end);
      StepReaches(held, t, InitRecheck(kind), world, end);
      StepReaches(m, t, InitWantsLock(kind), world, end);
    }
  }

  lemma {:induction false} EnsureReaches(m: Memory, t: Tid, kind: EncoderMode, world: World)
    requires m.holder.None?
    ensures var (last, r) := EnsuredAlone(m, t, world);
            Reaches(m, t, EnsureEntry(kind), world, Moved(last, if r.Ok? then ReadWantsLock(kind) else Idle))
  {
    hide Reaches;
    var (last, r) := EnsuredAlone(m, t, world);
    var end := Moved(last, if r.Ok? then ReadWantsLock(kind) else Idle);
    match m.kvmState {
      case Ready => Arrived(m, t, ReadWantsLock(kind), world);
      case Initializing =>
        Arrived(m, t, Idle, world);
        StepReaches(m, t, EnsureWaiting(kind), world, end);
      case InitFailed =>
        if m.failures >= MAX_INIT_FAILURES {
          Arrived(m, t, Idle, world);
        } else {
          InitReaches(m, t, kind, world);
        }
        StepReaches(m, t, EnsureFailed(kind), world, end);
      case NotStarted => InitReaches(m, t, kind, world);
    }
    StepReaches(m, t, EnsureEntry(kind), world, end);
  }

  /** The rest of `get_mjpeg` and `get_h264`. */
  function ReadAlone(m: Memory, t: Tid, kind: EncoderMode, ret: int): Memory {
    m.(mode := kind, failures := FailuresAfter(m.failures, ret), log := m.log + [Read(t, kind, kind, true, m.kvmState)])
  }

  lemma {:induction false} ReadReaches(m: Memory, t: Tid, kind: EncoderMode, world: World)
    requires m.holder.None?
    ensures Reaches(m, t, ReadWantsLock(kind), world, Moved(ReadAlone(m, t, kind, world.ret), Idle))
  {
    hide Reaches;
    var last := ReadAlone(m, t, kind, world.ret);
    var held, end := m.(holder := Some(t), mode := kind), Moved(last, Idle);
    Arrived(last, t, Idle, world);
    StepReaches(held.(log := last.log), t, ReadCounting(world.ret), world, end);
    StepReaches(held, t, ReadCalling(kind), world, end);
    if m.mode != kind {
      StepReaches(m.(holder := Some(t)), t, ReadSwitching(kind), world, end);
    }
    StepReaches(m.(holder := Some(t)), t, ReadMode(kind), world, end);
    StepReaches(m, t, ReadWantsLock(kind), world, end);
  }

  /** A call that found another thread initialising waits once: it reads if the
      hardware is up by then, and otherwise gives up without having touched anything. */
  lemma {:induction false} WaiterReads(m: Memory, t: Tid, kind: EncoderMode, world: World)
    requires m.holder.None?
    ensures m.kvmState.Ready? ==> Reaches(m, t, EnsureWaiting(kind), world, Moved(ReadAlone(m, t, kind, world.ret), Idle))
    ensures !m.kvmState.Ready? ==> Reaches(m, t, EnsureWaiting(kind), world, Moved(m, Idle))
  {
    hide Reaches;
    if m.kvmState.Ready? {
      ReadReaches(m, t, kind, world);
      StepReaches(m, t, EnsureWaiting(kind), world, Moved(ReadAlone(m, t, kind, world.ret), Idle));
    } else {
      Arrived(m, t, Idle, world);
      StepReaches(m, t, EnsureWaiting(kind), world, Moved(m, Idle));
    }
  }

  /** Of two threads that both set out to initialise, the one that gets the lock second
      does not do it again, but reads. */
  lemma {:induction false} OvertakenReads(m: Memory, t: Tid, kind: EncoderMode, world: World)
    requires m.holder.None? && m.kvmState.Ready?
    ensures Reaches(m, t, InitWantsLock(kind), world, Moved(ReadAlone(m, t, kind, world.ret), Idle))
  {
    hide Reaches;
    var end := Moved(ReadAlone(m, t, kind, world.ret), Idle);
    ReadReaches(m, t, kind, world);
    assert m.(holder := Some(t)).(holder := None) == m;
    StepReaches(m.(holder := Some(t)), t, InitRecheck(kind), world, end);
    StepReaches(m, t, InitWantsLock(kind), world, end);
  }

  /** Reads, one after the other, with nobody else moving. */
  function ReadsAlone(m: Memory, t: Tid, kind: EncoderMode, rets: seq<int>, n: nat): Memory
    requires n <= |rets|
  {
    if n == 0 then m else ReadAlone(ReadsAlone(m, t, kind, rets, n - 1), t, kind, rets[n - 1])
  }

  lemma {:induction false} ReadsCount(m: Memory, t: Tid, kind: EncoderMode, rets: seq<int>, n: nat)
    requires m.failures == 0 && n <= |rets|
    ensures ReadsAlone(m, t, kind, rets, n).failures == FailuresAlong(rets, n)
    ensures ReadsAlone(m, t, kind, rets, n).kvmState == m.kvmState
  {
    if n == 0 {
    } else {
      ReadsCount(m, t, kind, rets, n - 1);
    }
  }

  lemma {:induction false} CountedIsAll(rets: seq<int>, n: nat)
    requires n <= |rets| && forall i :: 0 <= i < |rets| ==> rets[i] in {-7, -2}
    ensures Counted(rets, 0, n) == n
  {
    if n == 0 {
    } else {
      CountedIsAll(rets, n - 1);
    }
  }

  /** An initialisation that fails for want of the library is retried by every call,
      without touching the hardware: such failures are not counted. */
  lemma {:induction false} MissingLibraryIsRetried(m: Memory, t: Tid, world: World)
    requires m.kvmState.NotStarted? && m.failures < 5 && !world.loaded
    ensures var (once, r) := EnsuredAlone(m, t, world);
            && r == Err(LibraryNotLoaded) && once == m.(kvmState := InitFailed)
            && EnsuredAlone(once, t, world) == (once, r)
    ensures var (once, _) := EnsuredAlone(m, t, world); forall later: World :: later.loaded ==>
              var (up, r) := EnsuredAlone(once, t, later);
              r == Ok(true) && up == Memory(Ready, m.mode, 0, m.holder, m.log + [Init(t)] + [Opened(t)])
  {}

  /** What is counted is reads: after k signal or encoder errors in a row, a shutdown,
      and one call without the library, later calls give up at once exactly when
      k is at least 5, until a reset. */
  lemma {:induction false} BackoffExactly(m: Memory, t: Tid, kind: EncoderMode, rets: seq<int>, without: World, with: World)
    requires m.kvmState.Ready? && m.failures == 0 && |rets| < 256 && !without.loaded && with.loaded
    requires forall i :: 0 <= i < |rets| ==> rets[i] in {-7, -2}
    ensures var down := ReadsAlone(m, t, kind, rets, |rets|).(kvmState := NotStarted, mode := NoMode);
            var (failed, r) := EnsuredAlone(down, t, without);
            && r == Err(LibraryNotLoaded) && failed == down.(kvmState := InitFailed)
            && (EnsuredAlone(failed, t, with) == (failed, Err(NotInitialized)) <==> |rets| >= 5)
            && (EnsuredAlone(failed, t, with).1 == Ok(true) <==> |rets| < 5)
            && EnsuredAlone(failed.(kvmState := NotStarted, failures := 0), t, with).1 == Ok(true)
  {
    ReadsCount(m, t, kind, rets, |rets|);
    FailuresCountSinceSuccess(rets, 0, |rets|);
    CountedIsAll(rets, |rets|);
    hide ReadsAlone, FailuresAlong, Counted;
  }

  /** The atomics of one `Kvm`; `log` is what the hardware sees. A method runs
      without interruption, as thread t of the machine does when nobody else moves. */
  class Kvm {
    var kvmState: InitState
    var encoderMode: EncoderMode
    var initFailures: nat
    ghost var log: seq<HwEvent>

    constructor ()
      ensures Free() == Initial().mem
    {
      kvmState, encoderMode, initFailures, log := NotStarted, NoMode, 0, [];
    }

    ghost function Free(): Memory
      reads this
    {
      Memory(kvmState, encoderMode, initFailures, None, log)
    }

    method EnsureInitialized(ghost t: Tid, kind: EncoderMode, world: World) returns (r: Result<bool, KvmError>)
      modifies this
      ensures (Free(), r) == EnsuredAlone(old(Free()), t, world)
      ensures Reaches(old(Free()), t, EnsureEntry(kind), world, Moved(Free(), if r.Ok? then ReadWantsLock(kind) else Idle))
    {
      EnsureReaches(Free(), t, kind, world);
      hide Reaches;
      match kvmState {
        case Ready => return Ok(false);
        case Initializing => return if kvmState.Ready? then Ok(false) else Err(NotInitialized);
        case InitFailed =>
          if initFailures >= MAX_INIT_FAILURES {
            return Err(NotInitialized);
          }
        case NotStarted =>
      }
      if !world.loaded {
        kvmState := InitFailed;
        return Err(LibraryNotLoaded);
      }
      kvmState := Initializing;
      log := log + [Init(t)];
      kvmState := Ready;
      initFailures := 0;
      log := log + [Opened(t)];
      return Ok(true);
    }

    method SwitchEncoderModeLocked(newMode: EncoderMode)
      modifies this
      ensures Free() == old(Free()).(mode := newMode)
    {
      if encoderMode == newMode {
        return;
      }
      encoderMode := newMode;
    }

    method ReadImg(ghost t: Tid, kind: EncoderMode, world: World) returns (r: Result<KvmFrame, KvmError>)
      modifies this
      ensures r == ReplyOf(world)
      ensures Free() == old(Free()).(failures := FailuresAfter(old(initFailures), world.ret),
                                     log := old(log) + [Read(t, kind, encoderMode, true, kvmState)])
    {
      log := log + [Read(t, kind, encoderMode, true, kvmState)];
      if world.ret < 0 {
        if world.ret == -7 || world.ret == -2 {
          initFailures := (initFailures + 1) % 256;
        }
        return Err(ErrorOf(world.ret));
      }
      initFailures := 0;
      if world.noData || world.size == 0 {
        return Err(NotExist);
      }
      return Ok(KvmFrame(world.size, FrameTypeOf(world.ret)));
    }

    /** `get_mjpeg` and `get_h264` */
    method Get(ghost t: Tid, kind: EncoderMode, world: World) returns (r: Result<KvmFrame, KvmError>)
      modifies this
      ensures var (m, ensured) := EnsuredAlone(old(Free()), t, world);
              && (ensured.Ok? ==> r == ReplyOf(world) && Free() == ReadAlone(m, t, kind, world.ret))
              && (ensured.Err? ==> r == Err(ensured.error) && Free() == m)
      ensures Reaches(old(Free()), t, EnsureEntry(kind), world, Moved(Free(), Idle))
    {
      ghost var m := Free();
      var ensured := EnsureInitialized(t, kind, world);
      if ensured.Err? {
        return Err(ensured.error);
      }
      ReadReaches(Free(), t, kind, world);
      ReachesOn(m, t, EnsureEntry(kind), world, Free(), ReadWantsLock(kind), Moved(ReadAlone(Free(), t, kind, world.ret), Idle));
      hide Reaches, EnsuredAlone, ReplyOf;
      SwitchEncoderModeLocked(kind);
      r := ReadImg(t, kind, world);
    }

    method ResetInitState(ghost t: Tid, ghost world: World)
      modifies this
      ensures Free() == Memory(NotStarted, NoMode, 0, None, old(log) + if old(kvmState).Ready? then [Deinit(t)] else [])
      ensures Reaches(old(Free()), t, ResetWantsLock, world, Moved(Free(), Idle))
    {
      ResetReaches(Free(), t, world);
      hide Reaches;
      if kvmState.Ready? {
        log := log + [Deinit(t)];
      }
      assert log == old(log) + if old(kvmState).Ready? then [Deinit(t)] else [];
      kvmState := NotStarted;
      encoderMode := NoMode;
      initFailures := 0;
    }

    method Deinitialize(ghost t: Tid, ghost world: World)
      modifies this
      ensures if old(kvmState).Ready?
              then Free() == Memory(NotStarted, NoMode, old(initFailures), None, old(log) + [Deinit(t)])
              else Free() == old(Free())
      ensures Reaches(old(Free()), t, DeinitWantsLock, world, Moved(Free(), Idle))
    {
      DeinitReaches(Free(), t, world);
      hide Reaches;
      if kvmState.Ready? {
        log := log + [Deinit(t)];
        kvmState := NotStarted;
        encoderMode := NoMode;
      }
    }
  }

  lemma {:induction false} ReachesOn(m: Memory, t: Tid, pc: Pc, world: World, m': Memory, pc': Pc, end: Moved)
    requires Reaches(m, t, pc, world, Moved(m', pc')) && Reaches(m', t, pc', world, end)
    ensures Reaches(m, t, pc, world, end)
  {
    var k: nat :| Solo(m, t, pc, world, k) == Moved(m', pc');
    SoloReachesOn(m, t, pc, world, k, end);
  }

  lemma {:induction false} SoloReachesOn(m: Memory, t: Tid, pc: Pc, world: World, k: nat, end: Moved)
    requires Reaches(Solo(m, t, pc, world, k).mem, t, Solo(m, t, pc, world, k).pc, world, end)
    ensures Reaches(m, t, pc, world, end)
    decreases k
  {
    if k == 0 {
    } else {
      var next := Move(m, t, pc, world);
      SoloReachesOn(next.mem, t, next.pc, world, k - 1, end);
      StepReaches(m, t, pc, world, end);
    }
  }

  ghost predicate Reachable(s: State) { exists steps :: Run(Initial(), steps) == s }

  lemma {:induction false} ReachableNext(s: State, st: Step)
    requires Reachable(s)
    ensures Reachable(Next(s, st))
  {
    var steps :| Run(Initial(), steps) == s;
    assert (steps + [st])[..|steps|] == steps;
    assert Run(Initial(), steps + [st]) == Next(s, st);
  }

  /** t may move: the lock is free, or t is inside and holds it. */
  predicate MayMove(m: Memory, t: Tid, pc: Pc) {
    if Unlocked(pc) then m.holder.None? else m.holder == Some(t)
  }

  lemma {:induction false} MoveMayMove(m: Memory, t: Tid, pc: Pc, world: World)
    requires MayMove(m, t, pc)
    ensures MayMove(Move(m, t, pc, world).mem, t, Move(m, t, pc, world).pc)
  {
    if !Unlocked(pc) {
      HolderFinishes(m, t, pc, world);
      hide Move;
    }
  }

  /** A thread running alone is a run of the machine. */
  lemma {:induction false} SoloIsReachable(s: State, t: Tid, world: World, n: nat)
    requires Reachable(s) && t in s.pcs && MayMove(s.mem, t, s.pcs[t])
    ensures var moved := Solo(s.mem, t, s.pcs[t], world, n);
            Reachable(State(moved.mem, s.pcs[t := moved.pc]))
    decreases n
  {
    var pc := s.pcs[t];
    if n == 0 {
      assert s.pcs[t := pc] == s.pcs;
    } else {
      var next := Move(s.mem, t, pc, world);
      var s' := State(next.mem, s.pcs[t := next.pc]);
      assert Reachable(s') by {
        ReachableNext(s, Advance(t, world));
        assert pc.Idle? ==> s' == State(s.mem, s.pcs) by { assert s.pcs[t := pc] == s.pcs; }
      }
      MoveMayMove(s.mem, t, pc, world);
      hide Move, Reachable, MayMove;
      SoloIsReachable(s', t, world, n - 1);
      var moved := Solo(s.mem, t, pc, world, n);
      assert s'.pcs[t := moved.pc] == s.pcs[t := moved.pc];
    }
  }

  lemma {:induction false} AloneIsReachable(s: State, t: Tid, world: World, moved: Moved)
    requires Reachable(s) && t in s.pcs && MayMove(s.mem, t, s.pcs[t]) && Reaches(s.mem, t, s.pcs[t], world, moved)
    ensures Reachable(State(moved.mem, s.pcs[t := moved.pc]))
  {
    var n: nat :| Solo(s.mem, t, s.pcs[t], world, n) == moved;
    SoloIsReachable(s, t, world, n);
  }

  /** A thread that opens the hardware and is overtaken by a shutdown reads from
      hardware that is down. */
  lemma {:induction false} ReadCanFindHardwareDown(kind: EncoderMode, ret: int) returns (s: State)
    ensures Reachable(s) && |s.mem.log| == 4 && s.mem.log[3].Read? && !Up(s.mem.log[..3])
  {
    var world := World(true, ret, true, 0);
    assert Run(Initial(), []) == Initial();
    var s1 := Next(Initial(), Start(0, Get(kind)));
    ReachableNext(Initial(), Start(0, Get(kind)));
    EnsureReaches(s1.mem, 0, kind, world);
    var ready := Memory(Ready, NoMode, 0, None, [] + [Init(0)] + [Opened(0)]);
    AloneIsReachable(s1, 0, world, Moved(ready, ReadWantsLock(kind)));
    var s2 := State(ready, s1.pcs[0 := ReadWantsLock(kind)]);
    var s3 := Next(s2, Start(1, Shutdown));
    ReachableNext(s2, Start(1, Shutdown));
    DeinitReaches(s3.mem, 1, world);
    var down := ready.(kvmState := NotStarted, log := ready.log + [Deinit(1)]);
    AloneIsReachable(s3, 1, world, Moved(down, Idle));
    var s4 := State(down, s3.pcs[1 := Idle]);
    ReadReaches(down, 0, kind, world);
    AloneIsReachable(s4, 0, world, Moved(ReadAlone(down, 0, kind, ret), Idle));
    s := State(ReadAlone(down, 0, kind, ret), s4.pcs[0 := Idle]);
    assert s.mem.log[..3] == down.log && down.log[..2] == ready.log;
  }
}
