/** The CUDA build of a run context: a stream, two library handles, an info cell and two growable
    work buffers. Every acquisition gets a number; every release call on a number is counted. */
module RunContexts {
  import opened Options

  datatype Placement = CPU | GPU
  datatype Mode = SYNC | ASYNC

  datatype Resource = Stream | Solver | Blas | Info | DeviceBuffer(size: nat) | HostBuffer(size: nat)

  /** What was acquired, and how often each acquisition was released. */
  datatype Ledger = Ledger(acquired: seq<Resource>, released: multiset<nat>)
  {
    function Acquire(r: Resource): Ledger {
      this.(acquired := acquired + [r])
    }

    function Release(id: nat): Ledger {
      this.(released := released + multiset{id})
    }

    predicate Live(id: nat, r: Resource) {
      id < |acquired| && acquired[id] == r && released[id] == 0
    }

    /** Everything acquired but not in `held` was released exactly once, and nothing else was. */
    ghost predicate Accounts(held: set<nat>) {
      && (forall id: nat :: released[id] == if id < |acquired| && id !in held then 1 else 0)
      && (forall id <- held :: id < |acquired|)
    }

    ghost predicate Settled() {
      Accounts({})
    }
  }

  datatype Buffer = Buffer(ptr: Option<nat>, size: nat)

  const NO_BUFFER := Buffer(None, 0)

  /** The fields of a context. The handles keep stale values while the placement is CPU. */
  datatype State = State(placement: Placement, mode: Mode, stream: nat, solver: nat, blas: nat, info: Option<nat>,
                         device: Buffer, host: Buffer, ledger: Ledger)

  datatype Op = Place(placement: Placement) | SetMode(m: Mode) | RequestDevice(size: nat) | RequestHost(size: nat)
              | FreeDevice | FreeHost

  // ---------- What each operation does to the state ----------

  function Open(s: State): State {
    var n := |s.ledger.acquired|;
    s.(stream := n, solver := n + 1, blas := n + 2, info := Some(n + 3),
       ledger := s.ledger.Acquire(Stream).Acquire(Solver).Acquire(Blas).Acquire(Info))
  }

  function Initial(p: Placement, m: Mode): State {
    var s := State(p, m, 0, 0, 0, None, NO_BUFFER, NO_BUFFER, Ledger([], multiset{}));
    if p == GPU then Open(s) else s
  }

  function ReleaseIf(l: Ledger, p: Option<nat>): Ledger {
    if p.Some? then l.Release(p.value) else l
  }

  function ReleaseHandles(s: State): Ledger {
    ReleaseIf(s.ledger.Release(s.solver).Release(s.blas).Release(s.stream), s.info)
  }

  function ReleaseBuffers(s: State): Ledger {
    ReleaseIf(ReleaseIf(s.ledger, s.device.ptr), s.host.ptr)
  }

  function Cleared(s: State): State {
    var l := if s.placement == GPU then ReleaseHandles(s.(ledger := ReleaseBuffers(s))) else s.ledger;
    s.(info := None, device := NO_BUFFER, host := NO_BUFFER, ledger := l)
  }

  /** `FreeWorkBufferDevice`: the pointer and the size stay as they are. */
  function DeviceFreed(s: State): State {
    if s.placement == GPU then s.(ledger := ReleaseIf(s.ledger, s.device.ptr)) else s
  }

  function HostFreed(s: State): State {
    if s.placement == GPU then s.(ledger := ReleaseIf(s.ledger, s.host.ptr)) else s
  }

  /** On a CPU context a request for more than nothing throws and changes nothing. */
  function Throws(s: State, n: nat): bool {
    n > 0 && s.placement == CPU
  }

  function DeviceRequested(s: State, n: nat): State {
    if n == 0 || s.placement == CPU || n <= s.device.size then s else
    s.(device := Buffer(Some(|s.ledger.acquired|), n),
       ledger := ReleaseIf(s.ledger, s.device.ptr).Acquire(DeviceBuffer(n)))
  }

  function HostRequested(s: State, n: nat): State {
    if n == 0 || s.placement == CPU || n <= s.host.size then s else
    s.(host := Buffer(Some(|s.ledger.acquired|), n),
       ledger := ReleaseIf(s.ledger, s.host.ptr).Acquire(HostBuffer(n)))
  }

  function Placed(s: State, p: Placement): State {
    if s.placement == GPU && p == GPU then DeviceFreed(s) else
    var t := Cleared(s).(placement := p);
    if p == GPU then Open(t) else t
  }

  function Step(s: State, op: Op): State {
    match op
    case Place(p) => Placed(s, p)
    case SetMode(m) => s.(mode := m)
    case RequestDevice(n) => DeviceRequested(s, n)
    case RequestHost(n) => HostRequested(s, n)
    case FreeDevice => DeviceFreed(s)
    case FreeHost => HostFreed(s)
  }

  function Steps(s: State, ops: seq<Op>): State
    decreases |ops|
  {
    if ops == [] then s else Steps(Step(s, ops[0]), ops[1..])
  }

  /** The destructor; it frees the buffers whatever the placement. */
  function Destroyed(s: State): Ledger {
    var l := ReleaseBuffers(s);
    if s.placement == GPU then ReleaseHandles(s.(ledger := l)) else l
  }

  // ---------- The invariant ----------

  predicate Owned(l: Ledger, b: Buffer, r: Resource, gpu: bool) {
    match b.ptr
    case None => b.size == 0
    case Some(id) => gpu && l.Live(id, r)
  }

  function HeldIf(p: Option<nat>): set<nat> {
    if p.Some? then {p.value} else {}
  }

  function Held(s: State): set<nat> {
    (if s.placement == GPU then {s.stream, s.solver, s.blas} else {})
    + HeldIf(s.info) + HeldIf(s.device.ptr) + HeldIf(s.host.ptr)
  }

  /** Placement GPU just when the stream, the handles and the info cell are live; each buffer null
      or live with its recorded size; whatever was acquired is either held or released once. */
  ghost predicate Valid(s: State) {
    && (s.placement == GPU ==>
          && s.ledger.Live(s.stream, Stream) && s.ledger.Live(s.solver, Solver) && s.ledger.Live(s.blas, Blas)
          && s.info.Some? && s.ledger.Live(s.info.value, Info))
    && (s.placement == CPU ==> s.info == None && s.device == NO_BUFFER && s.host == NO_BUFFER)
    && Owned(s.ledger, s.device, DeviceBuffer(s.device.size), s.placement == GPU)
    && Owned(s.ledger, s.host, HostBuffer(s.host.size), s.placement == GPU)
    && s.ledger.Accounts(Held(s))
  }

  /** The operation frees a work buffer that the context goes on pointing to. */
  predicate Careless(s: State, op: Op) {
    s.placement == GPU &&
    match op
    case Place(p) => p == GPU && s.device.ptr.Some?
    case FreeDevice => s.device.ptr.Some?
    case FreeHost => s.host.ptr.Some?
    case _ => false
  }

  predicate Careful(s: State, ops: seq<Op>)
    decreases |ops|
  {
    ops == [] || (!Careless(s, ops[0]) && Careful(Step(s, ops[0]), ops[1..]))
  }

  lemma AcquireAccounts(l: Ledger, held: set<nat>, r: Resource)
    requires l.Accounts(held)
    ensures l.Acquire(r).Accounts(held + {|l.acquired|})
  {
  }

  lemma ReleaseAccounts(l: Ledger, held: set<nat>, id: nat)
    requires l.Accounts(held) && id in held
    ensures l.Release(id).Accounts(held - {id})
  {
  }

  lemma ReleaseIfAccounts(l: Ledger, held: set<nat>, p: Option<nat>)
    requires l.Accounts(held) && (p.Some? ==> p.value in held)
    ensures ReleaseIf(l, p).Accounts(held - HeldIf(p)) && ReleaseIf(l, p).acquired == l.acquired
  {
    if p.Some? { ReleaseAccounts(l, held, p.value); }
  }

  /** A context without resources takes hold of the four handles. */
  lemma OpenIsValid(s: State)
    requires s.info == None && s.device == NO_BUFFER && s.host == NO_BUFFER && s.ledger.Settled()
    ensures Valid(Open(s.(placement := GPU)))
  {
    var l, n := s.ledger, |s.ledger.acquired|;
    AcquireAccounts(l, {}, Stream);
    AcquireAccounts(l.Acquire(Stream), {n}, Solver);
    AcquireAccounts(l.Acquire(Stream).Acquire(Solver), {n, n + 1}, Blas);
    AcquireAccounts(l.Acquire(Stream).Acquire(Solver).Acquire(Blas), {n, n + 1, n + 2}, Info);
    var t := Open(s.(placement := GPU));
    assert t.ledger == l.Acquire(Stream).Acquire(Solver).Acquire(Blas).Acquire(Info);
    assert Held(t) == {n, n + 1, n + 2, n + 3} == {n} + {n + 1} + {n + 2} + {n + 3};
    assert {n} + {n + 1} == {n, n + 1} && {n, n + 1} + {n + 2} == {n, n + 1, n + 2};
    assert t.ledger.acquired[n..] == [Stream, Solver, Blas, Info];
  }

  lemma InitialIsValid(p: Placement, m: Mode)
    ensures Valid(Initial(p, m))
  {
    var s := State(p, m, 0, 0, 0, None, NO_BUFFER, NO_BUFFER, Ledger([], multiset{}));
    if p == GPU { OpenIsValid(s); }
  }

  lemma BuffersReleased(s: State)
    requires Valid(s)
    ensures ReleaseBuffers(s).Accounts(Held(s) - HeldIf(s.device.ptr) - HeldIf(s.host.ptr))
  {
    ReleaseIfAccounts(s.ledger, Held(s), s.device.ptr);
    ReleaseIfAccounts(ReleaseIf(s.ledger, s.device.ptr), Held(s) - HeldIf(s.device.ptr), s.host.ptr);
  }

  lemma EverythingReleased(s: State)
    requires Valid(s) && s.placement == GPU
    ensures ReleaseHandles(s.(ledger := ReleaseBuffers(s))).Settled()
  {
    BuffersReleased(s);
    var l, held := ReleaseBuffers(s), Held(s) - HeldIf(s.device.ptr) - HeldIf(s.host.ptr);
    ReleaseAccounts(l, held, s.solver);
    ReleaseAccounts(l.Release(s.solver), held - {s.solver}, s.blas);
    ReleaseAccounts(l.Release(s.solver).Release(s.blas), held - {s.solver} - {s.blas}, s.stream);
    var rest := held - {s.solver} - {s.blas} - {s.stream};
    ReleaseIfAccounts(l.Release(s.solver).Release(s.blas).Release(s.stream), rest, s.info);
    assert rest - HeldIf(s.info) == {};
  }

  lemma DeviceRequestKeepsValid(s: State, n: nat)
    requires Valid(s)
    ensures Valid(DeviceRequested(s, n))
  {
    var t := DeviceRequested(s, n);
    if t != s {
      ReleaseIfAccounts(s.ledger, Held(s), s.device.ptr);
      var l, held := ReleaseIf(s.ledger, s.device.ptr), Held(s) - HeldIf(s.device.ptr);
      AcquireAccounts(l, held, DeviceBuffer(n));
      assert Held(t) == held + {|l.acquired|};
    }
  }

  lemma HostRequestKeepsValid(s: State, n: nat)
    requires Valid(s)
    ensures Valid(HostRequested(s, n))
  {
    var t := HostRequested(s, n);
    if t != s {
      ReleaseIfAccounts(s.ledger, Held(s), s.host.ptr);
      var l, held := ReleaseIf(s.ledger, s.host.ptr), Held(s) - HeldIf(s.host.ptr);
      AcquireAccounts(l, held, HostBuffer(n));
      assert Held(t) == held + {|l.acquired|};
    }
  }

  lemma PlacingKeepsValid(s: State, p: Placement)
    requires Valid(s) && !Careless(s, Place(p))
    ensures Valid(Placed(s, p))
  {
    hide ReleaseHandles, ReleaseBuffers;
    if s.placement == GPU && p == GPU {
      assert Placed(s, p) == s;
    } else {
      if s.placement == GPU { EverythingReleased(s); }
      var t := Cleared(s);
      assert t.ledger.Settled();
      if p == GPU { OpenIsValid(t); }
    }
  }

  lemma StepKeepsValid(s: State, op: Op)
    requires Valid(s) && !Careless(s, op)
    ensures Valid(Step(s, op))
  {
    match op
    case Place(p) => PlacingKeepsValid(s, p);
    case SetMode(m) => assert Held(s.(mode := m)) == Held(s);
    case RequestDevice(n) => DeviceRequestKeepsValid(s, n);
    case RequestHost(n) => HostRequestKeepsValid(s, n);
    case FreeDevice => assert Step(s, op) == s;
    case FreeHost => assert Step(s, op) == s;
  }

  lemma {:induction false} CarefulRunIsValid(s: State, ops: seq<Op>)
    requires Valid(s) && Careful(s, ops)
    ensures Valid(Steps(s, ops))
    decreases |ops|
  {
    if ops != [] {
      StepKeepsValid(s, ops[0]);
      CarefulRunIsValid(Step(s, ops[0]), ops[1..]);
    }
  }

  lemma ValidIsSettledByDestruction(s: State)
    requires Valid(s)
    ensures Destroyed(s).Settled()
  {
    if s.placement == GPU { EverythingReleased(s); }
  }

  /** On a GPU context a request for at least one byte yields a live buffer of that capacity; it
      throws on a CPU context. */
  lemma RequestYieldsCapacity(s: State, n: nat)
    requires Valid(s) && n > 0 && s.placement == GPU
    ensures var d := DeviceRequested(s, n);
            d.device.ptr.Some? && d.device.size >= n &&
            d.ledger.Live(d.device.ptr.value, DeviceBuffer(d.device.size))
    ensures var h := HostRequested(s, n);
            h.host.ptr.Some? && h.host.size >= n && h.ledger.Live(h.host.ptr.value, HostBuffer(h.host.size))
  {
  }

  /** A request that the buffer can meet changes nothing: same pointer, nothing released. */
  lemma RequestWithinCapacity(s: State, n: nat)
    ensures n <= s.device.size ==> DeviceRequested(s, n) == s
    ensures n <= s.host.size ==> HostRequested(s, n) == s
    ensures s.placement == CPU ==> DeviceRequested(s, n) == s && HostRequested(s, n) == s
    ensures Throws(s, n) <==> n >= 1 && s.placement == CPU
  {
  }

  /** A larger one replaces the buffer by one of the size asked for: one acquisition, at most one
      release, of the old buffer, and nothing else touched. */
  lemma RequestBeyondCapacity(s: State, n: nat)
    requires s.placement == GPU
    ensures var d := DeviceRequested(s, n);
            n > s.device.size ==>
              && d.device == Buffer(Some(|s.ledger.acquired|), n) && d.host == s.host
              && d.ledger.acquired == s.ledger.acquired + [DeviceBuffer(n)]
              && d.ledger.released == s.ledger.released + multiset(HeldIf(s.device.ptr))
    ensures var h := HostRequested(s, n);
            n > s.host.size ==>
              && h.host == Buffer(Some(|s.ledger.acquired|), n) && h.device == s.device
              && h.ledger.acquired == s.ledger.acquired + [HostBuffer(n)]
              && h.ledger.released == s.ledger.released + multiset(HeldIf(s.host.ptr))
  {
  }

  /** Only the operation named for it changes the mode or the placement, and only requests and
      placements change what is pointed to. */
  lemma StepFrame(s: State, op: Op)
    ensures Step(s, op).mode == if op.SetMode? then op.m else s.mode
    ensures Step(s, op).placement == if op.Place? then op.placement else s.placement
    ensures !op.Place? ==>
              var t := Step(s, op);
              && t.stream == s.stream && t.solver == s.solver && t.blas == s.blas && t.info == s.info
              && (!op.RequestDevice? ==> t.device == s.device) && (!op.RequestHost? ==> t.host == s.host)
    ensures op.SetMode? ==> Step(s, op).ledger == s.ledger
  {
  }

  /** A context acquires the four resources when it becomes one of the GPU, and none when not. */
  lemma PlacementAcquires(s: State, m: Mode)
    ensures Initial(CPU, m).ledger.acquired == [] && Initial(GPU, m).ledger.acquired == [Stream, Solver, Blas, Info]
    ensures Initial(CPU, m).placement == CPU && Initial(GPU, m).placement == GPU
    ensures Initial(CPU, m).mode == Initial(GPU, m).mode == m
    ensures Placed(s, CPU).ledger.acquired == s.ledger.acquired
    ensures Placed(s, GPU).ledger.acquired ==
            s.ledger.acquired + if s.placement == CPU then [Stream, Solver, Blas, Info] else []
  {
    assert [Stream] + [Solver] + [Blas] + [Info] == [Stream, Solver, Blas, Info];
  }

  // ---------- What a careless free leads to ----------

  predicate Dangling(l: Ledger, p: Option<nat>) {
    p.Some? && l.released[p.value] > 0
  }

  /** Something has been released twice, or a buffer that is still pointed to has been released. */
  ghost predicate Doomed(s: State) {
    || (exists id: nat :: s.ledger.released[id] > 1)
    || (s.placement == GPU && (Dangling(s.ledger, s.device.ptr) || Dangling(s.ledger, s.host.ptr)))
  }

  lemma CarelessIsDoomed(s: State, op: Op)
    requires Careless(s, op)
    ensures Doomed(Step(s, op))
  {
  }

  function Hits(p: Option<nat>, id: nat): nat {
    if p == Some(id) then 1 else 0
  }

  lemma BufferReleases(s: State, id: nat)
    ensures ReleaseBuffers(s).released[id] == s.ledger.released[id] + Hits(s.device.ptr, id) + Hits(s.host.ptr, id)
    ensures ReleaseHandles(s).released[id] >= s.ledger.released[id]
  {
  }

  /** Clearing up and destroying release both buffers, whatever else they release. */
  lemma TeardownReleases(s: State, id: nat)
    ensures var n := s.ledger.released[id] + Hits(s.device.ptr, id) + Hits(s.host.ptr, id);
            && Destroyed(s).released[id] >= n
            && (s.placement == GPU ==> Cleared(s).ledger.released[id] >= n)
            && Cleared(s).ledger.released[id] >= s.ledger.released[id]
  {
    hide ReleaseBuffers, ReleaseHandles;
    BufferReleases(s, id);
    BufferReleases(s.(ledger := ReleaseBuffers(s)), id);
  }

  /** No step takes a release back, and a GPU context loses a buffer only by releasing it. */
  lemma StepReleases(s: State, op: Op, id: nat)
    ensures var t := Step(s, op);
            && t.ledger.released[id] >= s.ledger.released[id]
            && (s.placement == GPU && s.device.ptr == Some(id) ==>
                  (t.placement == GPU && t.device.ptr == Some(id)) || t.ledger.released[id] > s.ledger.released[id])
            && (s.placement == GPU && s.host.ptr == Some(id) ==>
                  (t.placement == GPU && t.host.ptr == Some(id)) || t.ledger.released[id] > s.ledger.released[id])
  {
    hide Cleared;
    if op.Place? {
      TeardownReleases(s, id);
    }
  }

  lemma StepKeepsDoomed(s: State, op: Op)
    requires Doomed(s)
    ensures Doomed(Step(s, op))
  {
    hide Step;
    if id: nat :| s.ledger.released[id] > 1 {
      StepReleases(s, op, id);
    } else if Dangling(s.ledger, s.device.ptr) {
      StepReleases(s, op, s.device.ptr.value);
    } else {
      StepReleases(s, op, s.host.ptr.value);
    }
  }

  lemma {:induction false} RunKeepsDoomed(s: State, ops: seq<Op>)
    requires Doomed(s)
    ensures Doomed(Steps(s, ops))
    decreases |ops|
  {
    if ops != [] {
      StepKeepsDoomed(s, ops[0]);
      RunKeepsDoomed(Step(s, ops[0]), ops[1..]);
    }
  }

  lemma DoomedIsReleasedTwice(s: State)
    requires Doomed(s)
    ensures exists id: nat :: Destroyed(s).released[id] > 1
  {
    hide Destroyed;
    if id: nat :| s.ledger.released[id] > 1 {
      TeardownReleases(s, id);
    } else if Dangling(s.ledger, s.device.ptr) {
      TeardownReleases(s, s.device.ptr.value);
    } else {
      TeardownReleases(s, s.host.ptr.value);
    }
  }

  lemma {:induction false} CarelessRunIsDoomed(s: State, ops: seq<Op>)
    requires Valid(s) && !Careful(s, ops)
    ensures Doomed(Steps(s, ops))
    decreases |ops|
  {
    if Careless(s, ops[0]) {
      CarelessIsDoomed(s, ops[0]);
      RunKeepsDoomed(Step(s, ops[0]), ops[1..]);
    } else {
      StepKeepsValid(s, ops[0]);
      CarelessRunIsDoomed(Step(s, ops[0]), ops[1..]);
    }
  }

  /** From construction to destruction, everything acquired is released exactly once if and only
      if no work buffer was freed while the context pointed to one; otherwise something is
      released more than once. */
  lemma ReleasedExactlyOnce(p: Placement, m: Mode, ops: seq<Op>)
    ensures Careful(Initial(p, m), ops) <==> Destroyed(Steps(Initial(p, m), ops)).Settled()
    ensures !Careful(Initial(p, m), ops) ==>
              exists id: nat :: Destroyed(Steps(Initial(p, m), ops)).released[id] > 1
  {
    var s := Initial(p, m);
    InitialIsValid(p, m);
    if Careful(s, ops) {
      CarefulRunIsValid(s, ops);
      ValidIsSettledByDestruction(Steps(s, ops));
    } else {
      CarelessRunIsDoomed(s, ops);
      DoomedIsReleasedTwice(Steps(s, ops));
    }
  }

  /** Clearing the pointer and the size after the free is enough to need no such condition. */
  lemma ClearingRepairsTheFree(s: State, op: Op)
    requires Valid(s) && Careless(s, op)
    ensures Valid(if op.FreeHost? then Step(s, op).(host := NO_BUFFER) else Step(s, op).(device := NO_BUFFER))
  {
  }

  /** Asking a GPU context to become one again frees its buffer and keeps the pointer. */
  lemma PlacingOnGpuAgainReleasesTwice()
    ensures exists id: nat ::
              Destroyed(Steps(Initial(GPU, SYNC), [RequestDevice(8), Place(GPU)])).released[id] > 1
  {
    var s := Initial(GPU, SYNC);
    var ops := [RequestDevice(8), Place(GPU)];
    assert ops[1..] == [Place(GPU)];
    assert Careless(Step(s, ops[0]), ops[1]);
    ReleasedExactlyOnce(GPU, SYNC, ops);
  }

  // ---------- The object ----------

  class RunContext {
    var placement: Placement
    var mode: Mode
    var stream: nat
    var solver: nat
    var blas: nat
    var info: Option<nat>
    var device: Buffer
    var host: Buffer
    var ledger: Ledger   // the calls to the driver, the libraries and the allocator so far

    ghost function Fields(): State
      reads this
    {
      State(placement, mode, stream, solver, blas, info, device, host, ledger)
    }

    constructor (p: Placement, m: Mode)
      ensures Fields() == Initial(p, m) && Valid(Fields())
    {
      info := None;
      stream, solver, blas := 0, 0, 0;
      host, device := NO_BUFFER, NO_BUFFER;
      placement, mode := p, m;
      ledger := Ledger([], multiset{});
      new;
      if p == GPU { CreateHandles(); }
      InitialIsValid(p, m);
    }

    method CreateHandles()
      modifies this
      ensures Fields() == Open(old(Fields()))
    {
      stream := |ledger.acquired|;
      ledger := ledger.Acquire(Stream);
      solver := |ledger.acquired|;
      ledger := ledger.Acquire(Solver);
      blas := |ledger.acquired|;
      ledger := ledger.Acquire(Blas);
      info := Some(|ledger.acquired|);
      ledger := ledger.Acquire(Info);
    }

    method ReleaseAll()
      modifies this`ledger
      ensures ledger == ReleaseHandles(old(Fields()).(ledger := ReleaseBuffers(old(Fields()))))
    {
      if device.ptr.Some? { ledger := ledger.Release(device.ptr.value); }
      if host.ptr.Some? { ledger := ledger.Release(host.ptr.value); }
      ledger := ledger.Release(solver);
      ledger := ledger.Release(blas);
      ledger := ledger.Release(stream);
      if info.Some? { ledger := ledger.Release(info.value); }
    }

    method ClearUp()
      modifies this
      ensures Fields() == Cleared(old(Fields()))
    {
      if placement == GPU { ReleaseAll(); }
      info := None;
      device := NO_BUFFER;
      host := NO_BUFFER;
    }

    method FreeWorkBufferDevice()
      modifies this
      ensures Fields() == DeviceFreed(old(Fields()))
    {
      if placement == GPU && device.ptr.Some? { ledger := ledger.Release(device.ptr.value); }
    }

    method FreeWorkBufferHost()
      modifies this
      ensures Fields() == HostFreed(old(Fields()))
    {
      if placement == GPU && host.ptr.Some? { ledger := ledger.Release(host.ptr.value); }
    }

    method SetOperationPlacement(p: Placement)
      modifies this
      ensures Fields() == Placed(old(Fields()), p)
      ensures old(Valid(Fields())) && !old(Careless(Fields(), Place(p))) ==> Valid(Fields()) && placement == p
    {
      ghost var before := Fields();
      if placement == GPU && p == GPU {
        FreeWorkBufferDevice();
      } else {
        ClearUp();
        placement := p;
        if placement == GPU { CreateHandles(); }
      }
      if Valid(before) && !Careless(before, Place(p)) { StepKeepsValid(before, Place(p)); }
    }

    method SetRunMode(m: Mode)
      modifies this
      ensures Fields() == old(Fields()).(mode := m)
    {
      mode := m;
    }

    /** None is the exception. */
    method RequestWorkBufferDevice(n: nat) returns (r: Option<Option<nat>>)
      modifies this
      ensures Fields() == DeviceRequested(old(Fields()), n)
      ensures r == if Throws(old(Fields()), n) then None else Some(device.ptr)
      ensures old(Valid(Fields())) && n > 0 && placement == GPU ==>
                r.value.Some? && device.size >= n && ledger.Live(r.value.value, DeviceBuffer(device.size))
    {
      ghost var before := Fields();
      if n == 0 { return Some(device.ptr); }
      if placement == CPU { return None; }
      if n > device.size {
        if device.ptr.Some? { ledger := ledger.Release(device.ptr.value); }
        device := Buffer(Some(|ledger.acquired|), n);
        ledger := ledger.Acquire(DeviceBuffer(n));
      }
      r := Some(device.ptr);
      if Valid(before) { RequestYieldsCapacity(before, n); }
    }

    method RequestWorkBufferHost(n: nat) returns (r: Option<Option<nat>>)
      modifies this
      ensures Fields() == HostRequested(old(Fields()), n)
      ensures r == if Throws(old(Fields()), n) then None else Some(host.ptr)
      ensures old(Valid(Fields())) && n > 0 && placement == GPU ==>
                r.value.Some? && host.size >= n && ledger.Live(r.value.value, HostBuffer(host.size))
    {
      ghost var before := Fields();
      if n == 0 { return Some(host.ptr); }
      if placement == CPU { return None; }
      if n > host.size {
        if host.ptr.Some? { ledger := ledger.Release(host.ptr.value); }
        host := Buffer(Some(|ledger.acquired|), n);
        ledger := ledger.Acquire(HostBuffer(n));
      }
      r := Some(host.ptr);
      if Valid(before) { RequestYieldsCapacity(before, n); }
    }

    /** The destructor. */
    method Destroy()
      modifies this
      ensures ledger == Destroyed(old(Fields()))
      ensures old(Valid(Fields())) ==> ledger.Settled()
    {
      hide Valid;
      ghost var before := Fields();
      if device.ptr.Some? { ledger := ledger.Release(device.ptr.value); }
      if host.ptr.Some? { ledger := ledger.Release(host.ptr.value); }
      assert ledger == ReleaseBuffers(before);
      if placement == GPU {
        ledger := ledger.Release(solver);
        ledger := ledger.Release(blas);
        ledger := ledger.Release(stream);
        if info.Some? { ledger := ledger.Release(info.value); }
      }
      if Valid(before) { ValidIsSettledByDestruction(before); }
    }
  }
}
