/** The threads of xh_core.c: callers of refresh and clear, and the worker, step by step. */
module Async {
  import opened Wrappers

  // ---- where a thread stands, named by what it does next ----

  /** xh_core_init_once and the test after it. */
  datatype InitPc = ReadInited | LockInit | TestInit | AddHandler | UnlockInit | CheckInit

  /** xh_core_init_async_once, then the request of an asynchronous refresh. */
  datatype AsyncPc = ReadAsync | LockAsync | TestAsync | SetRunning | Create | SetAsyncOk | UnlockAsync | CheckAsync
                   | LockRequest | Request | SignalRequest | UnlockRequest

  /** A synchronous refresh. */
  datatype SyncPc = LockSync | SyncBody

  /** xh_core_refresh_thread_func. */
  datatype WorkerPc = LoopTest | LockLoop | WaitTest | Sleeping | Woken | Take | Quit | UnlockTake | LockBody | Body | Dead

  /** xh_core_clear. */
  datatype ClearPc = ReadAsyncOk | LockStop | Stop | SignalStop | UnlockStop | Join | ClearAsyncOk | ClearAsync
                   | ClearInitOk | ClearInited | LockTeardown | LockTeardownRefresh | Teardown | UnlockTeardown

  /** Idle threads are outside the library; async is the argument of refresh. */
  datatype Pc = Idle | Init(i: InitPc, async: bool) | Async(r: AsyncPc) | Sync(y: SyncPc) | Worker(k: WorkerPc) | Clear(c: ClearPc)

  /** The program counters, the owners of the two mutexes, the flags, and the thread last created. */
  datatype State = State(pc: map<nat, Pc>, core: Option<nat>, refresh: Option<nat>,
                         inited: bool, initOk: bool, asyncInited: bool, asyncInitOk: bool,
                         running: bool, pending: bool, worker: nat)

  function At(s: State, t: nat): Pc {
    if t in s.pc then s.pc[t] else Idle
  }

  function Go(s: State, t: nat, pc: Pc): State {
    s.(pc := s.pc[t := pc])
  }

  ghost predicate Lock(s: State, t: nat, pc: Pc, s': State) {
    s.core == None && s' == Go(s, t, pc).(core := Some(t))
  }

  ghost predicate Unlock(s: State, t: nat, pc: Pc, s': State) {
    s' == Go(s, t, pc).(core := None)
  }

  ghost predicate LockRefresh(s: State, t: nat, pc: Pc, s': State) {
    s.refresh == None && s' == Go(s, t, pc).(refresh := Some(t))
  }

  ghost predicate UnlockRefresh(s: State, t: nat, pc: Pc, s': State) {
    s' == Go(s, t, pc).(refresh := None)
  }

  ghost predicate Asleep(s: State, t: nat) {
    At(s, t) == Worker(Sleeping)
  }

  /** pthread_cond_signal: a sleeping thread, if there is one, is to take the mutex again. */
  ghost predicate Signal(s: State, t: nat, pc: Pc, s': State) {
    if exists u: nat :: Asleep(s, u)
    then exists u: nat :: Asleep(s, u) && s' == Go(Go(s, u, Worker(Woken)), t, pc)
    else s' == Go(s, t, pc)
  }

  // ---- steps ----

  ghost predicate InitStep(s: State, t: nat, i: InitPc, a: bool, s': State) {
    match i
    case ReadInited => s' == Go(s, t, Init(if s.inited then CheckInit else LockInit, a))
    case LockInit => Lock(s, t, Init(TestInit, a), s')
    case TestInit => s' == if s.inited then Go(s, t, Init(UnlockInit, a)) else Go(s, t, Init(AddHandler, a)).(inited := true)
    case AddHandler => s' == Go(s, t, Init(UnlockInit, a)) || s' == Go(s, t, Init(UnlockInit, a)).(initOk := true)
    case UnlockInit => Unlock(s, t, Init(CheckInit, a), s')
    case CheckInit => s' == Go(s, t, if !s.initOk then Idle else if a then Async(ReadAsync) else Sync(LockSync))
  }

  ghost predicate AsyncStep(s: State, t: nat, r: AsyncPc, s': State) {
    match r
    case ReadAsync => s' == Go(s, t, Async(if s.asyncInited then CheckAsync else LockAsync))
    case LockAsync => Lock(s, t, Async(TestAsync), s')
    case TestAsync => s' == if s.asyncInited then Go(s, t, Async(UnlockAsync)) else Go(s, t, Async(SetRunning)).(asyncInited := true)
    case SetRunning => s' == Go(s, t, Async(Create)).(running := true)
    case Create => s' == Go(s, t, Async(UnlockAsync)).(running := false) || exists u: nat :: Created(s, t, u, s')
    case SetAsyncOk => s' == Go(s, t, Async(UnlockAsync)).(asyncInitOk := true)
    case UnlockAsync => Unlock(s, t, Async(CheckAsync), s')
    case CheckAsync => s' == Go(s, t, if s.asyncInitOk then Async(LockRequest) else Idle)
    case LockRequest => Lock(s, t, Async(Request), s')
    case Request => s' == Go(s, t, Async(SignalRequest)).(pending := true)
    case SignalRequest => Signal(s, t, Async(UnlockRequest), s')
    case UnlockRequest => Unlock(s, t, Idle, s')
  }

  /** pthread_create starts a new thread u. */
  ghost predicate Created(s: State, t: nat, u: nat, s': State) {
    u !in s.pc && u != t && s' == Go(Go(s, u, Worker(LoopTest)), t, Async(SetAsyncOk)).(worker := u)
  }

  ghost predicate SyncStep(s: State, t: nat, y: SyncPc, s': State) {
    match y
    case LockSync => LockRefresh(s, t, Sync(SyncBody), s')
    case SyncBody => UnlockRefresh(s, t, Idle, s')
  }

  ghost predicate WorkerStep(s: State, t: nat, k: WorkerPc, s': State) {
    match k
    case LoopTest => s' == Go(s, t, Worker(if s.running then LockLoop else Dead))
    case LockLoop => Lock(s, t, Worker(WaitTest), s')
    case WaitTest => if !s.pending && s.running then Unlock(s, t, Worker(Sleeping), s') else s' == Go(s, t, Worker(Take))
    case Sleeping => false
    case Woken => Lock(s, t, Worker(WaitTest), s')
    case Take => s' == if !s.running then Go(s, t, Worker(Quit)) else Go(s, t, Worker(UnlockTake)).(pending := false)
    case Quit => Unlock(s, t, Worker(Dead), s')
    case UnlockTake => Unlock(s, t, Worker(LockBody), s')
    case LockBody => LockRefresh(s, t, Worker(Body), s')
    case Body => UnlockRefresh(s, t, Worker(LoopTest), s')
    case Dead => false
  }

  ghost predicate ClearStep(s: State, t: nat, c: ClearPc, s': State) {
    match c
    case ReadAsyncOk => s' == Go(s, t, Clear(if s.asyncInitOk then LockStop else ClearAsync))
    case LockStop => Lock(s, t, Clear(Stop), s')
    case Stop => s' == Go(s, t, Clear(SignalStop)).(running := false)
    case SignalStop => Signal(s, t, Clear(UnlockStop), s')
    case UnlockStop => Unlock(s, t, Clear(Join), s')
    case Join => At(s, s.worker) == Worker(Dead) && s' == Go(s, t, Clear(ClearAsyncOk))
    case ClearAsyncOk => s' == Go(s, t, Clear(ClearAsync)).(asyncInitOk := false)
    case ClearAsync => s' == Go(s, t, Clear(ClearInitOk)).(asyncInited := false)
    case ClearInitOk => s' == Go(s, t, Clear(ClearInited)).(initOk := false)
    case ClearInited => s' == Go(s, t, Clear(LockTeardown)).(inited := false)
    case LockTeardown => Lock(s, t, Clear(LockTeardownRefresh), s')
    case LockTeardownRefresh => LockRefresh(s, t, Clear(Teardown), s')
    case Teardown => UnlockRefresh(s, t, Clear(UnlockTeardown), s')
    case UnlockTeardown => Unlock(s, t, Idle, s')
  }

  /** One step of a thread that is inside the library. */
  ghost predicate Step(s: State, t: nat, s': State) {
    match At(s, t)
    case Idle => false
    case Init(i, a) => InitStep(s, t, i, a, s')
    case Async(r) => AsyncStep(s, t, r, s')
    case Sync(y) => SyncStep(s, t, y, s')
    case Worker(k) => WorkerStep(s, t, k, s')
    case Clear(c) => ClearStep(s, t, c, s')
  }

  /** A caller enters the library. */
  ghost predicate Call(s: State, t: nat, s': State) {
    At(s, t) == Idle && ((exists a :: s' == Go(s, t, Init(ReadInited, a))) || s' == Go(s, t, Clear(ReadAsyncOk)))
  }

  /** A sleeping thread may wake without a signal. */
  ghost predicate Spurious(s: State, t: nat, s': State) {
    Asleep(s, t) && s' == Go(s, t, Worker(Woken))
  }

  ghost predicate Next(s: State, t: nat, s': State) {
    Step(s, t, s') || Call(s, t, s') || Spurious(s, t, s')
  }

  ghost predicate Initial(s: State) {
    s == State(map[], None, None, false, false, false, false, false, false, s.worker)
  }

  // ---- what holds in every run ----

  /** The stretches between lock and unlock of xh_core_mutex. */
  predicate HoldsCore(pc: Pc) {
    match pc
    case Idle => false
    case Init(i, a) => i.TestInit? || i.AddHandler? || i.UnlockInit?
    case Async(r) => r.TestAsync? || r.SetRunning? || r.Create? || r.SetAsyncOk? || r.UnlockAsync?
                     || r.Request? || r.SignalRequest? || r.UnlockRequest?
    case Sync(y) => false
    case Worker(k) => k.WaitTest? || k.Take? || k.Quit? || k.UnlockTake?
    case Clear(c) => c.Stop? || c.SignalStop? || c.UnlockStop? || c.LockTeardownRefresh? || c.Teardown? || c.UnlockTeardown?
  }

  /** The refresh bodies and clear's teardown. */
  predicate HoldsRefresh(pc: Pc) {
    pc == Sync(SyncBody) || pc == Worker(Body) || pc == Clear(Teardown)
  }

  /** Waiting for xh_core_mutex. */
  predicate WantsCore(pc: Pc) {
    match pc
    case Idle => false
    case Init(i, a) => i.LockInit?
    case Async(r) => r.LockAsync? || r.LockRequest?
    case Sync(y) => false
    case Worker(k) => k.LockLoop? || k.Woken?
    case Clear(c) => c.LockStop? || c.LockTeardown?
  }

  /** The owners of the mutexes are the threads between lock and unlock. */
  ghost predicate Owned(s: State) {
    forall t: nat :: (s.core == Some(t) <==> HoldsCore(At(s, t))) && (s.refresh == Some(t) <==> HoldsRefresh(At(s, t)))
  }

  lemma OwnedInitially(s: State)
    requires Initial(s)
    ensures Owned(s)
  {}

  // How a step changes who holds what.

  /** Other threads stay where they are, but for a sleeper that is woken and a worker that is created. */
  ghost predicate OthersStay(s: State, t: nat, s': State) {
    forall u: nat :: u != t ==>
      || At(s', u) == At(s, u)
      || (Asleep(s, u) && At(s', u) == Worker(Woken))
      || (At(s, u) == Idle && At(s', u) == Worker(LoopTest))
  }

  ghost predicate CoreMoves(s: State, t: nat, s': State) {
    || (s'.core == s.core && HoldsCore(At(s', t)) == HoldsCore(At(s, t)))
    || (s.core == None && s'.core == Some(t) && HoldsCore(At(s', t)))
    || (HoldsCore(At(s, t)) && s'.core == None && !HoldsCore(At(s', t)))
  }

  ghost predicate RefreshMoves(s: State, t: nat, s': State) {
    || (s'.refresh == s.refresh && HoldsRefresh(At(s', t)) == HoldsRefresh(At(s, t)))
    || (s.refresh == None && s'.refresh == Some(t) && HoldsRefresh(At(s', t)))
    || (HoldsRefresh(At(s, t)) && s'.refresh == None && !HoldsRefresh(At(s', t)))
  }

  ghost predicate Moves(s: State, t: nat, s': State) {
    OthersStay(s, t, s') && CoreMoves(s, t, s') && RefreshMoves(s, t, s')
  }

  /** The step of a thread that takes or leaves no mutex. */
  lemma Jump(s: State, t: nat, pc: Pc, s': State)
    requires s'.pc == s.pc[t := pc] && s'.core == s.core && s'.refresh == s.refresh
    requires HoldsCore(pc) == HoldsCore(At(s, t)) && HoldsRefresh(pc) == HoldsRefresh(At(s, t))
    ensures Moves(s, t, s')
  {
    hide HoldsCore, HoldsRefresh;
  }

  lemma Locks(s: State, t: nat, pc: Pc, s': State)
    requires Lock(s, t, pc, s') && HoldsCore(pc) && HoldsRefresh(pc) == HoldsRefresh(At(s, t))
    ensures Moves(s, t, s')
  {
    hide HoldsCore, HoldsRefresh;
  }

  lemma Unlocks(s: State, t: nat, pc: Pc, s': State)
    requires Unlock(s, t, pc, s') && HoldsCore(At(s, t)) && !HoldsCore(pc) && HoldsRefresh(pc) == HoldsRefresh(At(s, t))
    ensures Moves(s, t, s')
  {
    hide HoldsCore, HoldsRefresh;
  }

  lemma LocksRefresh(s: State, t: nat, pc: Pc, s': State)
    requires LockRefresh(s, t, pc, s') && HoldsRefresh(pc) && HoldsCore(pc) == HoldsCore(At(s, t))
    ensures Moves(s, t, s')
  {
    hide HoldsCore, HoldsRefresh;
  }

  lemma UnlocksRefresh(s: State, t: nat, pc: Pc, s': State)
    requires UnlockRefresh(s, t, pc, s') && HoldsRefresh(At(s, t)) && !HoldsRefresh(pc) && HoldsCore(pc) == HoldsCore(At(s, t))
    ensures Moves(s, t, s')
  {
    hide HoldsCore, HoldsRefresh;
  }

  lemma Wakes(s: State, t: nat, u: nat, pc: Pc, s': State)
    requires Asleep(s, u) && u != t && s' == Go(Go(s, u, Worker(Woken)), t, pc)
    requires HoldsCore(pc) == HoldsCore(At(s, t)) && HoldsRefresh(pc) == HoldsRefresh(At(s, t))
    ensures Moves(s, t, s')
  {
    hide HoldsCore, HoldsRefresh;
  }

  lemma Signals(s: State, t: nat, pc: Pc, s': State)
    requires Signal(s, t, pc, s') && !Asleep(s, t)
    requires HoldsCore(pc) == HoldsCore(At(s, t)) && HoldsRefresh(pc) == HoldsRefresh(At(s, t))
    ensures Moves(s, t, s')
  {
    hide HoldsCore, HoldsRefresh, Asleep, At, Moves;
    if u: nat :| Asleep(s, u) && s' == Go(Go(s, u, Worker(Woken)), t, pc) {
      Wakes(s, t, u, pc, s');
    } else {
      Jump(s, t, pc, s');
    }
  }

  lemma Creates(s: State, t: nat, u: nat, s': State)
    requires Created(s, t, u, s') && At(s, t) == Async(Create)
    ensures Moves(s, t, s')
  {}

  lemma InitMoves(s: State, t: nat, i: InitPc, a: bool, s': State)
    requires At(s, t) == Init(i, a) && InitStep(s, t, i, a, s')
    ensures Moves(s, t, s')
  {
    hide Moves, Lock, Unlock;
    match i
    case LockInit => Locks(s, t, Init(TestInit, a), s');
    case UnlockInit => Unlocks(s, t, Init(CheckInit, a), s');
    case _ => Jump(s, t, At(s', t), s');
  }

  lemma AsyncMoves(s: State, t: nat, r: AsyncPc, s': State)
    requires At(s, t) == Async(r) && AsyncStep(s, t, r, s')
    ensures Moves(s, t, s')
  {
    hide Moves, Lock, Unlock, Signal, Created;
    match r
    case LockAsync => Locks(s, t, Async(TestAsync), s');
    case UnlockAsync => Unlocks(s, t, Async(CheckAsync), s');
    case LockRequest => Locks(s, t, Async(Request), s');
    case SignalRequest => Signals(s, t, Async(UnlockRequest), s');
    case UnlockRequest => Unlocks(s, t, Idle, s');
    case Create =>
      if u: nat :| Created(s, t, u, s') { Creates(s, t, u, s'); } else { Jump(s, t, Async(UnlockAsync), s'); }
    case _ => Jump(s, t, At(s', t), s');
  }

  lemma WorkerMoves(s: State, t: nat, k: WorkerPc, s': State)
    requires At(s, t) == Worker(k) && WorkerStep(s, t, k, s')
    ensures Moves(s, t, s')
  {
    hide Moves, Lock, Unlock, LockRefresh, UnlockRefresh;
    match k
    case LockLoop => Locks(s, t, Worker(WaitTest), s');
    case WaitTest => if !s.pending && s.running { Unlocks(s, t, Worker(Sleeping), s'); } else { Jump(s, t, Worker(Take), s'); }
    case Woken => Locks(s, t, Worker(WaitTest), s');
    case Quit => Unlocks(s, t, Worker(Dead), s');
    case UnlockTake => Unlocks(s, t, Worker(LockBody), s');
    case LockBody => LocksRefresh(s, t, Worker(Body), s');
    case Body => UnlocksRefresh(s, t, Worker(LoopTest), s');
    case _ => Jump(s, t, At(s', t), s');
  }

  lemma StopMoves(s: State, t: nat, c: ClearPc, s': State)
    requires At(s, t) == Clear(c) && ClearStep(s, t, c, s')
    requires c == ReadAsyncOk || c == LockStop || c == Stop || c == SignalStop || c == UnlockStop || c == Join
    ensures Moves(s, t, s')
  {
    hide Moves, Lock, Unlock, LockRefresh, UnlockRefresh, Signal;
    match c
    case ReadAsyncOk => Jump(s, t, Clear(if s.asyncInitOk then LockStop else ClearAsync), s');
    case LockStop => Locks(s, t, Clear(Stop), s');
    case Stop => Jump(s, t, Clear(SignalStop), s');
    case SignalStop => Signals(s, t, Clear(UnlockStop), s');
    case UnlockStop => Unlocks(s, t, Clear(Join), s');
    case Join => Jump(s, t, Clear(ClearAsyncOk), s');
  }

  lemma ClearMoves(s: State, t: nat, c: ClearPc, s': State)
    requires At(s, t) == Clear(c) && ClearStep(s, t, c, s')
    ensures Moves(s, t, s')
  {
    hide Moves, Lock, Unlock, LockRefresh, UnlockRefresh, Signal;
    match c
    case ClearAsyncOk => Jump(s, t, Clear(ClearAsync), s');
    case ClearAsync => Jump(s, t, Clear(ClearInitOk), s');
    case ClearInitOk => Jump(s, t, Clear(ClearInited), s');
    case ClearInited => Jump(s, t, Clear(LockTeardown), s');
    case LockTeardown => Locks(s, t, Clear(LockTeardownRefresh), s');
    case LockTeardownRefresh => LocksRefresh(s, t, Clear(Teardown), s');
    case Teardown => UnlocksRefresh(s, t, Clear(UnlockTeardown), s');
    case UnlockTeardown => Unlocks(s, t, Idle, s');
    case _ => StopMoves(s, t, c, s');
  }

  lemma SyncMoves(s: State, t: nat, y: SyncPc, s': State)
    requires At(s, t) == Sync(y) && SyncStep(s, t, y, s')
    ensures Moves(s, t, s')
  {
    hide Moves, LockRefresh, UnlockRefresh;
    match y
    case LockSync => LocksRefresh(s, t, Sync(SyncBody), s');
    case SyncBody => UnlocksRefresh(s, t, Idle, s');
  }

  lemma CallMoves(s: State, t: nat, s': State)
    requires Call(s, t, s') || Spurious(s, t, s')
    ensures Moves(s, t, s')
  {
    hide Moves;
    if Spurious(s, t, s') {
      Jump(s, t, Worker(Woken), s');
    } else if s' == Go(s, t, Clear(ReadAsyncOk)) {
      Jump(s, t, Clear(ReadAsyncOk), s');
    } else {
      var a :| s' == Go(s, t, Init(ReadInited, a));
      Jump(s, t, Init(ReadInited, a), s');
    }
  }

  lemma NextMoves(s: State, t: nat, s': State)
    requires Next(s, t, s')
    ensures Moves(s, t, s')
  {
    hide InitStep, AsyncStep, SyncStep, WorkerStep, ClearStep, Call, Spurious, Moves, At;
    if Step(s, t, s') {
      match At(s, t)
      case Init(i, a) => InitMoves(s, t, i, a, s');
      case Async(r) => AsyncMoves(s, t, r, s');
      case Sync(y) => SyncMoves(s, t, y, s');
      case Worker(k) => WorkerMoves(s, t, k, s');
      case Clear(c) => ClearMoves(s, t, c, s');
    } else {
      CallMoves(s, t, s');
    }
  }

  lemma OwnedKept(s: State, t: nat, s': State)
    requires Owned(s) && Next(s, t, s')
    ensures Owned(s')
  {
    hide Next, HoldsCore, HoldsRefresh;
    NextMoves(s, t, s');
    assert !HoldsCore(Idle) && !HoldsCore(Worker(Sleeping)) && !HoldsCore(Worker(Woken)) && !HoldsCore(Worker(LoopTest)) by { Outside(); }
    assert !HoldsRefresh(Idle) && !HoldsRefresh(Worker(Sleeping)) && !HoldsRefresh(Worker(Woken)) && !HoldsRefresh(Worker(LoopTest)) by { Outside(); }
  }

  lemma Outside()
    ensures !HoldsCore(Idle) && !HoldsCore(Worker(Sleeping)) && !HoldsCore(Worker(Woken)) && !HoldsCore(Worker(LoopTest))
    ensures !HoldsRefresh(Idle) && !HoldsRefresh(Worker(Sleeping)) && !HoldsRefresh(Worker(Woken)) && !HoldsRefresh(Worker(LoopTest))
  {}

  // ---- no wake-up is lost, in any run ----

  predicate Live(pc: Pc) {
    pc.Worker? && pc.k != Dead
  }

  /** A worker that will look at the request again, or is serving one. */
  predicate Awake(pc: Pc) {
    Live(pc) && pc != Worker(Sleeping) && pc != Worker(Quit)
  }

  /** Where the owner of the core mutex is. */
  function Holder(s: State): Pc {
    if s.core.Some? then At(s, s.core.value) else Idle
  }

  /** A signal or a new worker is on its way, or a worker is awake. */
  ghost predicate Watched(s: State) {
    || Holder(s) == Async(SignalRequest) || Holder(s) == Async(Create)
    || exists u: nat :: Awake(At(s, u))
  }

  /** Workers quit only when told to; and a request does not wait for sleepers only. */
  ghost predicate Attended(s: State) {
    && (forall t: nat :: At(s, t) == Worker(Quit) ==> !s.running)
    && (s.running && s.pending && (exists t: nat :: Asleep(s, t)) ==> Watched(s))
  }

  lemma AttendedInitially(s: State)
    requires Initial(s)
    ensures Attended(s)
  {}

  /** A step that brings no request, no running flag and no sleeper leaves the watch in place. */
  lemma CalmAttended(s: State, t: nat, pc: Pc, s': State)
    requires Attended(s) && Owned(s) && s'.pc == s.pc[t := pc] && CoreMoves(s, t, s')
    requires At(s, t) != Async(SignalRequest) && At(s, t) != Async(Create)
    requires (s'.running ==> s.running) && (s'.pending ==> s.pending)
    requires (pc == Worker(Quit) ==> !s'.running) && (pc == Worker(Sleeping) ==> !s'.pending)
    requires Awake(At(s, t)) && s'.running && s'.pending ==> Awake(pc)
    ensures Attended(s')
  {
    hide HoldsCore, HoldsRefresh, Awake;
    forall u: nat | At(s', u) == Worker(Quit) ensures !s'.running {
      assert u == t || At(s, u) == Worker(Quit);
    }
    if s'.running && s'.pending {
      if u: nat :| Asleep(s', u) {
        assert Asleep(s, u);
        if w: nat :| Awake(At(s, w)) {
          assert Awake(At(s', w));
        } else {
          var h := s.core.value;
          assert h != t && At(s', h) == At(s, h) && (HoldsCore(At(s, t)) ==> s.core == Some(t));
        }
      }
    }
  }

  /** Nothing is claimed while the flags are down. */
  lemma DownAttended(s: State, t: nat, pc: Pc, s': State)
    requires Attended(s) && s'.pc == s.pc[t := pc] && !s'.running
    ensures Attended(s')
  {}

  lemma SetRunningAttended(s: State, t: nat, s': State)
    requires Attended(s) && Owned(s) && At(s, t) == Async(SetRunning) && s' == Go(s, t, Async(Create)).(running := true)
    ensures Attended(s')
  {
    forall u: nat | At(s', u) == Worker(Quit) ensures false {
      assert HoldsCore(At(s, t)) && HoldsCore(At(s, u));
    }
    assert HoldsCore(At(s, t)) && HoldsCore(Worker(Quit));
    assert Holder(s') == Async(Create);
  }

  lemma RequestAttended(s: State, t: nat, s': State)
    requires Attended(s) && Owned(s) && At(s, t) == Async(Request) && s' == Go(s, t, Async(SignalRequest)).(pending := true)
    ensures Attended(s')
  {
    forall u: nat | At(s', u) == Worker(Quit) ensures !s'.running {
      assert u == t || At(s, u) == Worker(Quit);
    }
    assert HoldsCore(At(s, t));
    assert Holder(s') == Async(SignalRequest);
  }

  lemma CreatedAttended(s: State, t: nat, w: nat, s': State)
    requires Attended(s) && Created(s, t, w, s')
    ensures Attended(s')
  {
    forall u: nat | At(s', u) == Worker(Quit) ensures !s'.running {
      assert u == t || At(s, u) == Worker(Quit);
    }
    assert Awake(At(s', w));
  }

  lemma WakesAttended(s: State, t: nat, u: nat, pc: Pc, s': State)
    requires Attended(s) && u != t && s' == Go(Go(s, u, Worker(Woken)), t, pc) && !pc.Worker?
    ensures Attended(s')
  {
    forall u: nat | At(s', u) == Worker(Quit) ensures !s'.running {
      assert u == t || At(s, u) == Worker(Quit);
    }
    assert Awake(At(s', u));
  }

  lemma SignalAttended(s: State, t: nat, pc: Pc, s': State)
    requires Attended(s) && Signal(s, t, pc, s') && !Asleep(s, t) && !pc.Worker?
    ensures Attended(s')
  {
    if u: nat :| Asleep(s, u) && s' == Go(Go(s, u, Worker(Woken)), t, pc) {
      WakesAttended(s, t, u, pc, s');
    } else {
      forall u: nat | At(s', u) == Worker(Quit) ensures !s'.running {
        assert At(s, u) == Worker(Quit);
      }
      forall u: nat | Asleep(s', u) ensures false {
        assert Asleep(s, u);
      }
    }
  }

  ghost predicate SameFlags(s: State, s': State) {
    && s'.asyncInited == s.asyncInited && s'.asyncInitOk == s.asyncInitOk && s'.running == s.running
    && s'.pending == s.pending && s'.worker == s.worker
  }

  lemma InitAttended(s: State, t: nat, i: InitPc, a: bool, s': State)
    requires Attended(s) && Owned(s) && CoreMoves(s, t, s') && At(s, t) == Init(i, a) && InitStep(s, t, i, a, s')
    ensures Attended(s')
  {
    hide Attended, Owned, CoreMoves;
    match i
    case ReadInited => CalmAttended(s, t, Init(if s.inited then CheckInit else LockInit, a), s');
    case LockInit => CalmAttended(s, t, Init(TestInit, a), s');
    case TestInit => CalmAttended(s, t, Init(if s.inited then UnlockInit else AddHandler, a), s');
    case AddHandler => CalmAttended(s, t, Init(UnlockInit, a), s');
    case UnlockInit => CalmAttended(s, t, Init(CheckInit, a), s');
    case CheckInit => CalmAttended(s, t, if !s.initOk then Idle else if a then Async(ReadAsync) else Sync(LockSync), s');
  }

  lemma AsyncAttended(s: State, t: nat, r: AsyncPc, s': State)
    requires Attended(s) && Owned(s) && CoreMoves(s, t, s') && At(s, t) == Async(r) && AsyncStep(s, t, r, s')
    ensures Attended(s')
  {
    hide Attended, Owned, CoreMoves, Signal, Created;
    match r
    case SetRunning => SetRunningAttended(s, t, s');
    case Request => RequestAttended(s, t, s');
    case SignalRequest => SignalAttended(s, t, Async(UnlockRequest), s');
    case Create => if w: nat :| Created(s, t, w, s') { CreatedAttended(s, t, w, s'); } else { DownAttended(s, t, Async(UnlockAsync), s'); }
    case _ => CalmAttended(s, t, At(s', t), s');
  }

  lemma WorkerAttended(s: State, t: nat, k: WorkerPc, s': State)
    requires Attended(s) && Owned(s) && CoreMoves(s, t, s') && At(s, t) == Worker(k) && WorkerStep(s, t, k, s')
    ensures Attended(s')
  {
    hide Attended, Owned, CoreMoves, Lock, Unlock, LockRefresh, UnlockRefresh, Awake;
    WorkerGoes(s, t, k, s');
    WorkerNextOk(s, k);
    CalmAttended(s, t, Worker(WorkerNext(s, k)), s');
  }

  /** Where a worker's step takes it. */
  function WorkerNext(s: State, k: WorkerPc): WorkerPc {
    match k
    case LoopTest => if s.running then LockLoop else Dead
    case LockLoop => WaitTest
    case WaitTest => if !s.pending && s.running then Sleeping else Take
    case Sleeping => Sleeping
    case Woken => WaitTest
    case Take => if !s.running then Quit else UnlockTake
    case Quit => Dead
    case UnlockTake => LockBody
    case LockBody => Body
    case Body => LoopTest
    case Dead => Dead
  }

  lemma WorkerGoes(s: State, t: nat, k: WorkerPc, s': State)
    requires WorkerStep(s, t, k, s')
    ensures s'.pc == s.pc[t := Worker(WorkerNext(s, k))] && s'.running == s.running
    ensures s'.pending == (s.pending && !(k == Take && s.running))
  {
    match k
    case LoopTest =>
    case LockLoop =>
    case WaitTest =>
    case Woken =>
    case Take =>
    case Quit =>
    case UnlockTake =>
    case LockBody =>
    case Body =>
  }

  lemma WorkerNextOk(s: State, k: WorkerPc)
    requires k != Sleeping && k != Dead
    ensures WorkerNext(s, k) == Quit ==> !s.running
    ensures WorkerNext(s, k) == Sleeping ==> !s.pending
    ensures Awake(Worker(k)) && s.running && s.pending && k != Take ==> Awake(Worker(WorkerNext(s, k)))
  {}

  lemma ClearAttended(s: State, t: nat, c: ClearPc, s': State)
    requires Attended(s) && Owned(s) && CoreMoves(s, t, s') && At(s, t) == Clear(c) && ClearStep(s, t, c, s')
    ensures Attended(s')
  {
    hide Attended, Owned, CoreMoves, Signal;
    match c
    case SignalStop => SignalAttended(s, t, Clear(UnlockStop), s');
    case _ => CalmAttended(s, t, At(s', t), s');
  }

  lemma CallAttended(s: State, t: nat, s': State)
    requires Attended(s) && Owned(s) && CoreMoves(s, t, s') && (Call(s, t, s') || Spurious(s, t, s'))
    ensures Attended(s')
  {
    hide Attended, Owned, CoreMoves;
    if Spurious(s, t, s') {
      CalmAttended(s, t, Worker(Woken), s');
    } else if s' == Go(s, t, Clear(ReadAsyncOk)) {
      CalmAttended(s, t, Clear(ReadAsyncOk), s');
    } else {
      var a :| s' == Go(s, t, Init(ReadInited, a));
      CalmAttended(s, t, Init(ReadInited, a), s');
    }
  }

  lemma AttendedKept(s: State, t: nat, s': State)
    requires Owned(s) && Attended(s) && Next(s, t, s')
    ensures Attended(s')
  {
    hide InitStep, AsyncStep, WorkerStep, ClearStep, Call, Spurious, Moves, At, Attended, Owned, LockRefresh, UnlockRefresh;
    NextMoves(s, t, s');
    MovesCore(s, t, s');
    if Step(s, t, s') {
      match At(s, t)
      case Init(i, a) => InitAttended(s, t, i, a, s');
      case Async(r) => AsyncAttended(s, t, r, s');
      case Sync(y) => SyncAttended(s, t, y, s');
      case Worker(k) => WorkerAttended(s, t, k, s');
      case Clear(c) => ClearAttended(s, t, c, s');
    } else {
      CallAttended(s, t, s');
    }
  }

  lemma SyncAttended(s: State, t: nat, y: SyncPc, s': State)
    requires Attended(s) && Owned(s) && CoreMoves(s, t, s') && At(s, t) == Sync(y) && SyncStep(s, t, y, s')
    ensures Attended(s')
  {
    hide Attended, Owned, CoreMoves;
    CalmAttended(s, t, if y.LockSync? then Sync(SyncBody) else Idle, s');
  }

  lemma MovesCore(s: State, t: nat, s': State)
    requires Moves(s, t, s')
    ensures CoreMoves(s, t, s')
  {}

  // ---- runs in which clear does not race with refresh ----

  /** Clear is called when every other caller is outside, and no one calls during a clear. */
  ghost predicate PoliteCall(s: State, t: nat, s': State) {
    && Call(s, t, s')
    && (At(s', t).Clear? ==> forall u: nat :: At(s, u).Idle? || At(s, u).Worker?)
    && forall u: nat :: !At(s, u).Clear?
  }

  ghost predicate PoliteNext(s: State, t: nat, s': State) {
    Step(s, t, s') || PoliteCall(s, t, s') || Spurious(s, t, s')
  }

  /** About to create the worker. */
  predicate Starting(pc: Pc) {
    pc == Async(SetRunning) || pc == Async(Create)
  }

  predicate Signalling(pc: Pc) {
    pc == Async(SignalRequest) || pc == Clear(SignalStop)
  }

  /** From the test of clear to the join. */
  predicate Stopping(pc: Pc) {
    pc.Clear? && (pc.c.LockStop? || pc.c.Stop? || pc.c.SignalStop? || pc.c.UnlockStop? || pc.c.Join?)
  }

  /** The worker has been told to stop. */
  predicate Told(pc: Pc) {
    pc.Clear? && (pc.c.SignalStop? || pc.c.UnlockStop? || pc.c.Join?)
  }

  /** Clear is past the join, or had nothing to join. */
  predicate Joined(pc: Pc) {
    pc.Clear? && !pc.c.ReadAsyncOk? && !Stopping(pc)
  }

  /** What the place of thread t says about the flags and the worker. */
  ghost predicate ThreadOk(s: State, t: nat) {
    var pc, w := At(s, t), At(s, s.worker);
    && (Live(pc) ==> t == s.worker)
    && (pc == Worker(Quit) ==> !s.running)
    && (Starting(pc) ==> s.asyncInited && !Live(w))
    && (pc == Async(SetAsyncOk) ==> s.asyncInited && w.Worker?)
    && (Stopping(pc) ==> s.asyncInitOk)
    && (Told(pc) ==> !s.running)
    && (Joined(pc) ==> !Live(w))
    && (pc.Clear? ==> forall u: nat :: u != t ==> At(s, u).Idle? || At(s, u).Worker?)
  }

  /** What the worker's place says about the flags. */
  ghost predicate WorkerOk(s: State) {
    var w := At(s, s.worker);
    && (Live(w) ==> s.asyncInited && (s.asyncInitOk || Holder(s) == Async(SetAsyncOk)))
    && (s.asyncInitOk ==> w.Worker?)
    && (s.running && !Live(w) ==> Holder(s) == Async(Create))
    && (w == Worker(Sleeping) && (s.pending || !s.running) ==> Signalling(Holder(s)))
  }

  ghost predicate Inv(s: State) {
    Owned(s) && WorkerOk(s) && forall t: nat :: ThreadOk(s, t)
  }

  lemma InvInitially(s: State)
    requires Initial(s)
    ensures Inv(s)
  {}

  /** Steps that do not concern the worker. */
  predicate Dull(pc: Pc) {
    && !pc.Worker? && !pc.Clear? && !Starting(pc) && pc != Async(SetAsyncOk) && !Signalling(pc)
  }

  lemma DullKept(s: State, t: nat, pc: Pc, s': State)
    requires Inv(s) && s'.pc == s.pc[t := pc] && SameFlags(s, s') && Owned(s') && CoreMoves(s, t, s')
    requires Dull(At(s, t)) && Dull(pc) && (At(s, t).Idle? ==> forall u: nat :: !At(s, u).Clear?)
    ensures Inv(s')
  {
    hide HoldsCore, HoldsRefresh;
    forall u: nat ensures ThreadOk(s', u) {
      assert ThreadOk(s, u);
    }
  }

  lemma CoreHeld(s: State, t: nat)
    requires Owned(s)
    requires var pc := At(s, t); Starting(pc) || Signalling(pc) || pc == Async(SetAsyncOk) || pc == Async(Request) || pc == Clear(Stop)
    ensures s.core == Some(t)
  {}

  /** The worker, awake before and after, lets the flags be or takes the request. */
  lemma AwakeKept(s: State, t: nat, k: WorkerPc, s': State)
    requires Inv(s) && s'.pc == s.pc[t := Worker(k)] && Owned(s') && CoreMoves(s, t, s')
    requires SameFlags(s, s'.(pending := s.pending)) && (s'.pending ==> s.pending)
    requires Live(At(s, t)) && At(s, t) != Worker(Quit) && k != Sleeping && k != Dead && (k == Quit ==> !s.running)
    ensures Inv(s')
  {
    hide HoldsCore, HoldsRefresh;
    assert ThreadOk(s, t);
    forall u: nat ensures ThreadOk(s', u) {
      assert ThreadOk(s, u);
    }
  }

  /** Clear, once past the join, is alone with a dead worker. */
  lemma JoinedKept(s: State, t: nat, pc: Pc, s': State)
    requires Inv(s) && s'.pc == s.pc[t := pc] && Owned(s') && CoreMoves(s, t, s')
    requires Joined(At(s, t)) && (Joined(pc) || pc == Idle)
    requires s'.running == s.running && s'.pending == s.pending && s'.worker == s.worker
    requires s'.asyncInitOk ==> s.asyncInitOk
    ensures Inv(s')
  {
    hide HoldsCore, HoldsRefresh;
    assert ThreadOk(s, t);
    forall u: nat ensures ThreadOk(s', u) {
      assert ThreadOk(s, u);
    }
  }

  lemma TestAsyncKept(s: State, t: nat, s': State)
    requires Inv(s) && Owned(s') && At(s, t) == Async(TestAsync)
    requires AsyncStep(s, t, TestAsync, s')
    ensures Inv(s')
  {
    hide HoldsCore, HoldsRefresh;
    assert ThreadOk(s, t);
    forall u: nat ensures ThreadOk(s', u) {
      assert ThreadOk(s, u);
    }
  }

  lemma SetRunningKept(s: State, t: nat, s': State)
    requires Inv(s) && Owned(s') && At(s, t) == Async(SetRunning)
    requires AsyncStep(s, t, SetRunning, s')
    ensures Inv(s')
  {
    hide HoldsCore, HoldsRefresh;
    CoreHeld(s, t);
    assert ThreadOk(s, t);
    forall u: nat ensures ThreadOk(s', u) {
      assert ThreadOk(s, u);
    }
  }

  lemma SetAsyncOkKept(s: State, t: nat, s': State)
    requires Inv(s) && Owned(s') && At(s, t) == Async(SetAsyncOk)
    requires AsyncStep(s, t, SetAsyncOk, s')
    ensures Inv(s')
  {
    hide HoldsCore, HoldsRefresh;
    CoreHeld(s, t);
    assert ThreadOk(s, t);
    forall u: nat ensures ThreadOk(s', u) {
      assert ThreadOk(s, u);
    }
  }

  lemma RequestKept(s: State, t: nat, s': State)
    requires Inv(s) && Owned(s') && At(s, t) == Async(Request)
    requires AsyncStep(s, t, Request, s')
    ensures Inv(s')
  {
    hide HoldsCore, HoldsRefresh;
    CoreHeld(s, t);
    assert ThreadOk(s, t);
    forall u: nat ensures ThreadOk(s', u) {
      assert ThreadOk(s, u);
    }
  }

  lemma CreatedKept(s: State, t: nat, w: nat, s': State)
    requires Inv(s) && Owned(s') && At(s, t) == Async(Create) && Created(s, t, w, s')
    ensures Inv(s')
  {
    hide HoldsCore, HoldsRefresh;
    CoreHeld(s, t);
    assert ThreadOk(s, t);
    assert At(s', s'.worker) == Worker(LoopTest) && At(s', t) == Async(SetAsyncOk);
    forall u: nat ensures ThreadOk(s', u) {
      assert ThreadOk(s, u);
      if Starting(At(s, u)) { CoreHeld(s, u); }
    }
  }

  lemma NotCreatedKept(s: State, t: nat, s': State)
    requires Inv(s) && Owned(s') && At(s, t) == Async(Create)
    requires s' == Go(s, t, Async(UnlockAsync)).(running := false)
    ensures Inv(s')
  {
    hide HoldsCore, HoldsRefresh;
    CoreHeld(s, t);
    assert ThreadOk(s, t);
    forall u: nat ensures ThreadOk(s', u) {
      assert ThreadOk(s, u);
    }
  }

  lemma LoopTestKept(s: State, t: nat, s': State)
    requires Inv(s) && Owned(s') && At(s, t) == Worker(LoopTest)
    requires WorkerStep(s, t, LoopTest, s')
    ensures Inv(s')
  {
    hide HoldsCore, HoldsRefresh;
    assert ThreadOk(s, t);
    forall u: nat ensures ThreadOk(s', u) {
      assert ThreadOk(s, u);
    }
  }

  lemma WaitTestKept(s: State, t: nat, s': State)
    requires Inv(s) && Owned(s') && At(s, t) == Worker(WaitTest)
    requires WorkerStep(s, t, WaitTest, s')
    ensures Inv(s')
  {
    hide HoldsCore, HoldsRefresh;
    assert ThreadOk(s, t);
    forall u: nat ensures ThreadOk(s', u) {
      assert ThreadOk(s, u);
    }
  }

  lemma QuitKept(s: State, t: nat, s': State)
    requires Inv(s) && Owned(s') && At(s, t) == Worker(Quit)
    requires WorkerStep(s, t, Quit, s')
    ensures Inv(s')
  {
    hide HoldsCore, HoldsRefresh;
    assert ThreadOk(s, t);
    forall u: nat ensures ThreadOk(s', u) {
      assert ThreadOk(s, u);
    }
  }

  lemma ReadAsyncOkKept(s: State, t: nat, s': State)
    requires Inv(s) && Owned(s') && At(s, t) == Clear(ReadAsyncOk)
    requires ClearStep(s, t, ReadAsyncOk, s')
    ensures Inv(s')
  {
    hide HoldsCore, HoldsRefresh;
    assert ThreadOk(s, t);
    forall u: nat ensures ThreadOk(s', u) {
      assert ThreadOk(s, u);
    }
  }

  lemma LockStopKept(s: State, t: nat, s': State)
    requires Inv(s) && Owned(s') && At(s, t) == Clear(LockStop)
    requires ClearStep(s, t, LockStop, s')
    ensures Inv(s')
  {
    hide HoldsCore, HoldsRefresh;
    assert ThreadOk(s, t);
    forall u: nat ensures ThreadOk(s', u) {
      assert ThreadOk(s, u);
    }
  }

  lemma StopKept(s: State, t: nat, s': State)
    requires Inv(s) && Owned(s') && At(s, t) == Clear(Stop)
    requires ClearStep(s, t, Stop, s')
    ensures Inv(s')
  {
    hide HoldsCore, HoldsRefresh;
    CoreHeld(s, t);
    assert ThreadOk(s, t);
    forall u: nat ensures ThreadOk(s', u) {
      assert ThreadOk(s, u);
    }
  }

  lemma UnlockStopKept(s: State, t: nat, s': State)
    requires Inv(s) && Owned(s') && At(s, t) == Clear(UnlockStop)
    requires ClearStep(s, t, UnlockStop, s')
    ensures Inv(s')
  {
    hide HoldsCore, HoldsRefresh;
    assert ThreadOk(s, t);
    forall u: nat ensures ThreadOk(s', u) {
      assert ThreadOk(s, u);
    }
  }

  lemma JoinKept(s: State, t: nat, s': State)
    requires Inv(s) && Owned(s') && At(s, t) == Clear(Join)
    requires ClearStep(s, t, Join, s')
    ensures Inv(s')
  {
    hide HoldsCore, HoldsRefresh;
    assert ThreadOk(s, t);
    forall u: nat ensures ThreadOk(s', u) {
      assert ThreadOk(s, u);
    }
  }

  /** A signal wakes the sleeping worker, if it sleeps. */
  lemma WakesKept(s: State, t: nat, u: nat, pc: Pc, s': State)
    requires Inv(s) && Owned(s') && Asleep(s, u) && s' == Go(Go(s, u, Worker(Woken)), t, pc)
    requires (At(s, t) == Async(SignalRequest) && pc == Async(UnlockRequest)) || (At(s, t) == Clear(SignalStop) && pc == Clear(UnlockStop))
    ensures Inv(s')
  {
    hide HoldsCore, HoldsRefresh;
    CoreHeld(s, t);
    assert ThreadOk(s, t) && ThreadOk(s, u);
    forall v: nat ensures ThreadOk(s', v) {
      assert ThreadOk(s, v);
    }
  }

  lemma NoSleeperKept(s: State, t: nat, pc: Pc, s': State)
    requires Inv(s) && Owned(s') && s' == Go(s, t, pc) && !Asleep(s, s.worker)
    requires (At(s, t) == Async(SignalRequest) && pc == Async(UnlockRequest)) || (At(s, t) == Clear(SignalStop) && pc == Clear(UnlockStop))
    ensures Inv(s')
  {
    hide HoldsCore, HoldsRefresh;
    CoreHeld(s, t);
    assert ThreadOk(s, t);
    forall v: nat ensures ThreadOk(s', v) {
      assert ThreadOk(s, v);
    }
  }

  lemma SignalKept(s: State, t: nat, pc: Pc, s': State)
    requires Inv(s) && Owned(s') && Signal(s, t, pc, s')
    requires (At(s, t) == Async(SignalRequest) && pc == Async(UnlockRequest)) || (At(s, t) == Clear(SignalStop) && pc == Clear(UnlockStop))
    ensures Inv(s')
  {
    hide HoldsCore, HoldsRefresh, Inv, Owned, At;
    if u: nat :| Asleep(s, u) && s' == Go(Go(s, u, Worker(Woken)), t, pc) {
      WakesKept(s, t, u, pc, s');
    } else {
      NoSleeperKept(s, t, pc, s');
    }
  }

  lemma AsyncKept(s: State, t: nat, r: AsyncPc, s': State)
    requires Inv(s) && Owned(s') && CoreMoves(s, t, s') && At(s, t) == Async(r) && AsyncStep(s, t, r, s')
    ensures Inv(s')
  {
    hide Inv, Owned, HoldsCore, HoldsRefresh, Signal, Created, CoreMoves;
    match r
    case TestAsync => TestAsyncKept(s, t, s');
    case SetRunning => SetRunningKept(s, t, s');
    case SetAsyncOk => SetAsyncOkKept(s, t, s');
    case Request => RequestKept(s, t, s');
    case SignalRequest => SignalKept(s, t, Async(UnlockRequest), s');
    case Create => if w: nat :| Created(s, t, w, s') { CreatedKept(s, t, w, s'); } else { NotCreatedKept(s, t, s'); }
    case _ => DullKept(s, t, At(s', t), s');
  }

  lemma InitKept(s: State, t: nat, i: InitPc, a: bool, s': State)
    requires Inv(s) && Owned(s') && CoreMoves(s, t, s') && At(s, t) == Init(i, a) && InitStep(s, t, i, a, s')
    ensures Inv(s')
  {
    hide Inv, Owned, HoldsCore, HoldsRefresh, CoreMoves;
    match i
    case ReadInited => DullKept(s, t, Init(if s.inited then CheckInit else LockInit, a), s');
    case LockInit => DullKept(s, t, Init(TestInit, a), s');
    case TestInit => DullKept(s, t, Init(if s.inited then UnlockInit else AddHandler, a), s');
    case AddHandler => DullKept(s, t, Init(UnlockInit, a), s');
    case UnlockInit => DullKept(s, t, Init(CheckInit, a), s');
    case CheckInit => DullKept(s, t, if !s.initOk then Idle else if a then Async(ReadAsync) else Sync(LockSync), s');
  }

  lemma WorkerKept(s: State, t: nat, k: WorkerPc, s': State)
    requires Inv(s) && Owned(s') && CoreMoves(s, t, s') && At(s, t) == Worker(k) && WorkerStep(s, t, k, s')
    ensures Inv(s')
  {
    hide Inv, Owned, HoldsCore, HoldsRefresh, CoreMoves;
    match k
    case LoopTest => LoopTestKept(s, t, s');
    case WaitTest => WaitTestKept(s, t, s');
    case Quit => QuitKept(s, t, s');
    case LockLoop => AwakeKept(s, t, WaitTest, s');
    case Woken => AwakeKept(s, t, WaitTest, s');
    case Take => AwakeKept(s, t, if s.running then UnlockTake else Quit, s');
    case UnlockTake => AwakeKept(s, t, LockBody, s');
    case LockBody => AwakeKept(s, t, Body, s');
    case Body => AwakeKept(s, t, LoopTest, s');
  }

  lemma ClearKept(s: State, t: nat, c: ClearPc, s': State)
    requires Inv(s) && Owned(s') && CoreMoves(s, t, s') && At(s, t) == Clear(c) && ClearStep(s, t, c, s')
    ensures Inv(s')
  {
    hide Inv, Owned, HoldsCore, HoldsRefresh, CoreMoves, Signal;
    match c
    case ReadAsyncOk => ReadAsyncOkKept(s, t, s');
    case LockStop => LockStopKept(s, t, s');
    case Stop => StopKept(s, t, s');
    case SignalStop => SignalKept(s, t, Clear(UnlockStop), s');
    case UnlockStop => UnlockStopKept(s, t, s');
    case Join => JoinKept(s, t, s');
    case _ => JoinedKept(s, t, At(s', t), s');
  }

  lemma ClearCalled(s: State, t: nat, s': State)
    requires Inv(s) && Owned(s') && At(s, t) == Idle && s' == Go(s, t, Clear(ReadAsyncOk))
    requires forall u: nat :: At(s, u).Idle? || At(s, u).Worker?
    ensures Inv(s')
  {
    hide HoldsCore, HoldsRefresh;
    forall u: nat ensures ThreadOk(s', u) {
      assert ThreadOk(s, u);
    }
  }

  lemma CallKept(s: State, t: nat, s': State)
    requires Inv(s) && Owned(s') && CoreMoves(s, t, s') && PoliteCall(s, t, s')
    ensures Inv(s')
  {
    hide HoldsCore, HoldsRefresh, Inv, Owned, CoreMoves;
    if s' == Go(s, t, Clear(ReadAsyncOk)) {
      assert At(s', t) == Clear(ReadAsyncOk);
      ClearCalled(s, t, s');
    } else {
      var a :| s' == Go(s, t, Init(ReadInited, a));
      DullKept(s, t, Init(ReadInited, a), s');
    }
  }

  lemma SyncKept(s: State, t: nat, y: SyncPc, s': State)
    requires Inv(s) && Owned(s') && CoreMoves(s, t, s') && At(s, t) == Sync(y) && SyncStep(s, t, y, s')
    ensures Inv(s')
  {
    hide Inv, Owned, HoldsCore, HoldsRefresh, CoreMoves;
    DullKept(s, t, if y.LockSync? then Sync(SyncBody) else Idle, s');
  }

  lemma InvKept(s: State, t: nat, s': State)
    requires Inv(s) && PoliteNext(s, t, s')
    ensures Inv(s')
  {
    hide InitStep, AsyncStep, SyncStep, WorkerStep, ClearStep, Call, WorkerOk, ThreadOk, Moves;
    assert Next(s, t, s');
    OwnedKept(s, t, s');
    NextMoves(s, t, s');
    assert CoreMoves(s, t, s') by { MovesCore(s, t, s'); }
    if Step(s, t, s') {
      match At(s, t)
      case Init(i, a) => InitKept(s, t, i, a, s');
      case Async(r) => AsyncKept(s, t, r, s');
      case Sync(y) => SyncKept(s, t, y, s');
      case Worker(k) => WorkerKept(s, t, k, s');
      case Clear(c) => ClearKept(s, t, c, s');
    } else if PoliteCall(s, t, s') {
      CallKept(s, t, s');
    } else {
      AwakeKept(s, t, Woken, s');
    }
  }

  // ---- runs ----

  ghost predicate Run(ss: seq<State>) {
    && ss != [] && Initial(ss[0])
    && forall i :: 0 <= i < |ss| - 1 ==> Leads(ss[i], ss[i + 1])
  }

  ghost predicate Leads(s: State, s': State) {
    exists t: nat :: Next(s, t, s')
  }

  ghost predicate PoliteRun(ss: seq<State>) {
    && ss != [] && Initial(ss[0])
    && forall i :: 0 <= i < |ss| - 1 ==> PolitelyLeads(ss[i], ss[i + 1])
  }

  ghost predicate PolitelyLeads(s: State, s': State) {
    exists t: nat :: PoliteNext(s, t, s')
  }

  lemma {:induction false} RunOwned(ss: seq<State>)
    requires Run(ss)
    ensures Owned(ss[|ss| - 1])
  {
    hide Next, Owned, Initial;
    if |ss| == 1 {
      OwnedInitially(ss[0]);
    } else {
      RunOwned(ss[..|ss| - 1]);
      var s, s' := ss[|ss| - 2], ss[|ss| - 1];
      assert Leads(s, s');
      var t: nat :| Next(s, t, s');
      OwnedKept(s, t, s');
    }
  }

  /** In every run: no two threads are in a refresh body or the teardown at once, and no thread
      waits for the core mutex while it holds the refresh mutex. */
  lemma MutualExclusion(ss: seq<State>, t: nat, u: nat)
    requires Run(ss)
    ensures var s := ss[|ss| - 1];
      HoldsRefresh(At(s, t)) ==> !WantsCore(At(s, t)) && (HoldsRefresh(At(s, u)) ==> t == u)
    ensures var s := ss[|ss| - 1]; HoldsCore(At(s, t)) && HoldsCore(At(s, u)) ==> t == u
  {
    RunOwned(ss);
  }

  lemma {:induction false} RunInv(ss: seq<State>)
    requires PoliteRun(ss)
    ensures Inv(ss[|ss| - 1])
  {
    hide PoliteNext, Inv, Initial;
    if |ss| == 1 {
      InvInitially(ss[0]);
    } else {
      RunInv(ss[..|ss| - 1]);
      var s, s' := ss[|ss| - 2], ss[|ss| - 1];
      assert PolitelyLeads(s, s');
      var t: nat :| PoliteNext(s, t, s');
      InvKept(s, t, s');
    }
  }

  lemma {:induction false} RunAttended(ss: seq<State>)
    requires Run(ss)
    ensures Attended(ss[|ss| - 1])
  {
    hide Next, Owned, Attended, Initial;
    if |ss| == 1 {
      AttendedInitially(ss[0]);
    } else {
      RunOwned(ss[..|ss| - 1]);
      RunAttended(ss[..|ss| - 1]);
      var s, s' := ss[|ss| - 2], ss[|ss| - 1];
      assert Leads(s, s');
      var t: nat :| Next(s, t, s');
      AttendedKept(s, t, s');
    }
  }

  /** In every run: while the worker is to run, a request that is pending never coexists with a sleeping
      worker, unless the owner of the mutex is about to signal or to create a worker, or another worker
      is awake. */
  lemma NoWakeUpLost(ss: seq<State>, t: nat)
    requires Run(ss)
    requires var s := ss[|ss| - 1]; s.running && s.pending && Asleep(s, t)
    ensures Watched(ss[|ss| - 1])
  {
    RunAttended(ss);
  }

  /** When clear does not race with refresh, there is at most one worker; as long as it is to run
      it is there, and asleep with a request pending only if it is about to be signalled. */
  lemma WorkerAttends(ss: seq<State>, t: nat, u: nat)
    requires PoliteRun(ss)
    ensures var s := ss[|ss| - 1]; Live(At(s, t)) && Live(At(s, u)) ==> t == u
    ensures var s := ss[|ss| - 1]; Asleep(s, t) && (s.pending || !s.running) ==> Signalling(Holder(s))
    ensures var s := ss[|ss| - 1]; s.running && Holder(s) != Async(Create) ==> Live(At(s, s.worker))
  {
    hide Owned, HoldsCore, HoldsRefresh;
    var s := ss[|ss| - 1];
    RunInv(ss);
    assert ThreadOk(s, t) && ThreadOk(s, u);
  }

  // ---- no deadlock ----

  /** Waiting for someone else. */
  ghost predicate Blocked(s: State, t: nat) {
    var pc := At(s, t);
    || pc == Idle || pc == Worker(Sleeping) || pc == Worker(Dead)
    || (WantsCore(pc) && s.core.Some?)
    || ((pc == Sync(LockSync) || pc == Worker(LockBody) || pc == Clear(LockTeardownRefresh)) && s.refresh.Some?)
    || (pc == Clear(Join) && At(s, s.worker) != Worker(Dead))
  }

  ghost predicate Enabled(s: State, t: nat) {
    exists s' :: Step(s, t, s')
  }

  ghost predicate SomeoneSteps(s: State) {
    exists t: nat :: Enabled(s, t)
  }

  lemma InitEnabled(s: State, t: nat, i: InitPc, a: bool)
    requires i == LockInit ==> s.core == None
    ensures exists s' :: InitStep(s, t, i, a, s')
  {
    match i
    case ReadInited => assert InitStep(s, t, i, a, Go(s, t, Init(if s.inited then CheckInit else LockInit, a)));
    case LockInit => assert InitStep(s, t, i, a, Go(s, t, Init(TestInit, a)).(core := Some(t)));
    case TestInit =>
      assert InitStep(s, t, i, a, if s.inited then Go(s, t, Init(UnlockInit, a)) else Go(s, t, Init(AddHandler, a)).(inited := true));
    case AddHandler => assert InitStep(s, t, i, a, Go(s, t, Init(UnlockInit, a)));
    case UnlockInit => assert InitStep(s, t, i, a, Go(s, t, Init(CheckInit, a)).(core := None));
    case CheckInit =>
      assert InitStep(s, t, i, a, Go(s, t, if !s.initOk then Idle else if a then Async(ReadAsync) else Sync(LockSync)));
  }

  lemma SignalEnabled(s: State, t: nat, pc: Pc)
    ensures exists s' :: Signal(s, t, pc, s')
  {
    if u: nat :| Asleep(s, u) {
      assert Signal(s, t, pc, Go(Go(s, u, Worker(Woken)), t, pc));
    } else {
      assert Signal(s, t, pc, Go(s, t, pc));
    }
  }

  lemma RequestEnabled(s: State, t: nat, r: AsyncPc)
    requires r == LockRequest || r == Request || r == SignalRequest || r == UnlockRequest || r == CheckAsync
    requires r == LockRequest ==> s.core == None
    ensures exists s' :: AsyncStep(s, t, r, s')
  {
    hide Signal, Created;
    match r
    case CheckAsync => assert AsyncStep(s, t, r, Go(s, t, if s.asyncInitOk then Async(LockRequest) else Idle));
    case LockRequest => assert AsyncStep(s, t, r, Go(s, t, Async(Request)).(core := Some(t)));
    case Request => assert AsyncStep(s, t, r, Go(s, t, Async(SignalRequest)).(pending := true));
    case SignalRequest =>
      SignalEnabled(s, t, Async(UnlockRequest));
      var s' :| Signal(s, t, Async(UnlockRequest), s');
      assert AsyncStep(s, t, r, s');
    case UnlockRequest => assert AsyncStep(s, t, r, Go(s, t, Idle).(core := None));
  }

  lemma CreateEnabled(s: State, t: nat, r: AsyncPc)
    requires r == SetRunning || r == Create || r == SetAsyncOk || r == UnlockAsync
    ensures exists s' :: AsyncStep(s, t, r, s')
  {
    hide Signal, Created;
    match r
    case SetRunning => assert AsyncStep(s, t, r, Go(s, t, Async(Create)).(running := true));
    case Create => assert AsyncStep(s, t, r, Go(s, t, Async(UnlockAsync)).(running := false));
    case SetAsyncOk => assert AsyncStep(s, t, r, Go(s, t, Async(UnlockAsync)).(asyncInitOk := true));
    case UnlockAsync => assert AsyncStep(s, t, r, Go(s, t, Async(CheckAsync)).(core := None));
  }

  lemma TestEnabled(s: State, t: nat, r: AsyncPc)
    requires r == ReadAsync || r == LockAsync || r == TestAsync
    requires r == LockAsync ==> s.core == None
    ensures exists s' :: AsyncStep(s, t, r, s')
  {
    hide Signal, Created;
    match r
    case ReadAsync => assert AsyncStep(s, t, r, Go(s, t, Async(if s.asyncInited then CheckAsync else LockAsync)));
    case LockAsync => assert AsyncStep(s, t, r, Go(s, t, Async(TestAsync)).(core := Some(t)));
    case TestAsync =>
      assert AsyncStep(s, t, r, if s.asyncInited then Go(s, t, Async(UnlockAsync)) else Go(s, t, Async(SetRunning)).(asyncInited := true));
  }

  lemma AsyncEnabled(s: State, t: nat, r: AsyncPc)
    requires r == LockAsync || r == LockRequest ==> s.core == None
    ensures exists s' :: AsyncStep(s, t, r, s')
  {
    hide AsyncStep;
    if r == ReadAsync || r == LockAsync || r == TestAsync {
      TestEnabled(s, t, r);
    } else if r == SetRunning || r == Create || r == SetAsyncOk || r == UnlockAsync {
      CreateEnabled(s, t, r);
    } else {
      RequestEnabled(s, t, r);
    }
  }

  lemma WorkerEnabled(s: State, t: nat, k: WorkerPc)
    requires k != Sleeping && k != Dead && (k == LockLoop || k == Woken ==> s.core == None) && (k == LockBody ==> s.refresh == None)
    ensures exists s' :: WorkerStep(s, t, k, s')
  {
    match k
    case LoopTest => assert WorkerStep(s, t, k, Go(s, t, Worker(if s.running then LockLoop else Dead)));
    case LockLoop => assert WorkerStep(s, t, k, Go(s, t, Worker(WaitTest)).(core := Some(t)));
    case WaitTest =>
      assert WorkerStep(s, t, k, if !s.pending && s.running then Go(s, t, Worker(Sleeping)).(core := None) else Go(s, t, Worker(Take)));
    case Woken => assert WorkerStep(s, t, k, Go(s, t, Worker(WaitTest)).(core := Some(t)));
    case Take => assert WorkerStep(s, t, k, if !s.running then Go(s, t, Worker(Quit)) else Go(s, t, Worker(UnlockTake)).(pending := false));
    case Quit => assert WorkerStep(s, t, k, Go(s, t, Worker(Dead)).(core := None));
    case UnlockTake => assert WorkerStep(s, t, k, Go(s, t, Worker(LockBody)).(core := None));
    case LockBody => assert WorkerStep(s, t, k, Go(s, t, Worker(Body)).(refresh := Some(t)));
    case Body => assert WorkerStep(s, t, k, Go(s, t, Worker(LoopTest)).(refresh := None));
  }

  lemma StopEnabled(s: State, t: nat, c: ClearPc)
    requires (c == LockStop ==> s.core == None) && (c == Join ==> At(s, s.worker) == Worker(Dead))
    requires c == ReadAsyncOk || c == LockStop || c == Stop || c == SignalStop || c == UnlockStop || c == Join
    ensures exists s' :: ClearStep(s, t, c, s')
  {
    hide Signal;
    match c
    case ReadAsyncOk => assert ClearStep(s, t, c, Go(s, t, Clear(if s.asyncInitOk then LockStop else ClearAsync)));
    case LockStop => assert ClearStep(s, t, c, Go(s, t, Clear(Stop)).(core := Some(t)));
    case Stop => assert ClearStep(s, t, c, Go(s, t, Clear(SignalStop)).(running := false));
    case SignalStop =>
      SignalEnabled(s, t, Clear(UnlockStop));
      var s' :| Signal(s, t, Clear(UnlockStop), s');
      assert ClearStep(s, t, c, s');
    case UnlockStop => assert ClearStep(s, t, c, Go(s, t, Clear(Join)).(core := None));
    case Join => assert ClearStep(s, t, c, Go(s, t, Clear(ClearAsyncOk)));
  }

  lemma FlagsEnabled(s: State, t: nat, c: ClearPc)
    requires c == ClearAsyncOk || c == ClearAsync || c == ClearInitOk || c == ClearInited
    ensures exists s' :: ClearStep(s, t, c, s')
  {
    match c
    case ClearAsyncOk => assert ClearStep(s, t, c, Go(s, t, Clear(ClearAsync)).(asyncInitOk := false));
    case ClearAsync => assert ClearStep(s, t, c, Go(s, t, Clear(ClearInitOk)).(asyncInited := false));
    case ClearInitOk => assert ClearStep(s, t, c, Go(s, t, Clear(ClearInited)).(initOk := false));
    case ClearInited => assert ClearStep(s, t, c, Go(s, t, Clear(LockTeardown)).(inited := false));
  }

  lemma TeardownEnabled(s: State, t: nat, c: ClearPc)
    requires c == LockTeardown || c == LockTeardownRefresh || c == Teardown || c == UnlockTeardown
    requires (c == LockTeardown ==> s.core == None) && (c == LockTeardownRefresh ==> s.refresh == None)
    ensures exists s' :: ClearStep(s, t, c, s')
  {
    match c
    case LockTeardown => assert ClearStep(s, t, c, Go(s, t, Clear(LockTeardownRefresh)).(core := Some(t)));
    case LockTeardownRefresh => assert ClearStep(s, t, c, Go(s, t, Clear(Teardown)).(refresh := Some(t)));
    case Teardown => assert ClearStep(s, t, c, Go(s, t, Clear(UnlockTeardown)).(refresh := None));
    case UnlockTeardown => assert ClearStep(s, t, c, Go(s, t, Idle).(core := None));
  }

  lemma ClearEnabled(s: State, t: nat, c: ClearPc)
    requires (c == LockStop || c == LockTeardown ==> s.core == None) && (c == LockTeardownRefresh ==> s.refresh == None)
    requires c == Join ==> At(s, s.worker) == Worker(Dead)
    ensures exists s' :: ClearStep(s, t, c, s')
  {
    hide ClearStep;
    match c
    case ClearAsyncOk => FlagsEnabled(s, t, c);
    case ClearAsync => FlagsEnabled(s, t, c);
    case ClearInitOk => FlagsEnabled(s, t, c);
    case ClearInited => FlagsEnabled(s, t, c);
    case LockTeardown => TeardownEnabled(s, t, c);
    case LockTeardownRefresh => TeardownEnabled(s, t, c);
    case Teardown => TeardownEnabled(s, t, c);
    case UnlockTeardown => TeardownEnabled(s, t, c);
    case _ => StopEnabled(s, t, c);
  }

  lemma SyncEnabled(s: State, t: nat, y: SyncPc)
    requires At(s, t) == Sync(y) && !Blocked(s, t)
    ensures exists s' :: SyncStep(s, t, y, s')
  {
    var s' := if y.LockSync? then Go(s, t, Sync(SyncBody)).(refresh := Some(t)) else Go(s, t, Idle).(refresh := None);
    assert SyncStep(s, t, y, s');
  }

  /** A thread that does not wait for another can step. */
  lemma UnblockedSteps(s: State, t: nat)
    requires !Blocked(s, t)
    ensures Enabled(s, t)
  {
    hide InitStep, AsyncStep, SyncStep, WorkerStep, ClearStep;
    match At(s, t)
    case Init(i, a) =>
      InitEnabled(s, t, i, a);
      var s' :| InitStep(s, t, i, a, s');
      assert Step(s, t, s');
    case Async(r) =>
      AsyncEnabled(s, t, r);
      var s' :| AsyncStep(s, t, r, s');
      assert Step(s, t, s');
    case Sync(y) =>
      SyncEnabled(s, t, y);
      var s' :| SyncStep(s, t, y, s');
      assert Step(s, t, s');
    case Worker(k) =>
      WorkerEnabled(s, t, k);
      var s' :| WorkerStep(s, t, k, s');
      assert Step(s, t, s');
    case Clear(c) =>
      ClearEnabled(s, t, c);
      var s' :| ClearStep(s, t, c, s');
      assert Step(s, t, s');
    case Idle => assert false;
  }

  /** Whoever owns a mutex can step, or waits for an owner who can. */
  lemma OwnersStep(s: State)
    requires Owned(s) && (s.core.Some? || s.refresh.Some?)
    ensures SomeoneSteps(s)
  {
    hide Enabled;
    if s.refresh.Some? {
      assert HoldsRefresh(At(s, s.refresh.value));
      UnblockedSteps(s, s.refresh.value);
    } else {
      assert HoldsCore(At(s, s.core.value));
      UnblockedSteps(s, s.core.value);
    }
  }

  /** When clear does not race with refresh, no caller is ever stuck: as long as one is inside,
      some thread can step without waiting for a new call or a spurious wake-up. */
  lemma NoDeadlock(ss: seq<State>, t: nat)
    requires PoliteRun(ss)
    requires var pc := At(ss[|ss| - 1], t); pc != Idle && !pc.Worker?
    ensures SomeoneSteps(ss[|ss| - 1])
  {
    hide Enabled, Owned, HoldsCore, HoldsRefresh, WantsCore;
    var s := ss[|ss| - 1];
    RunInv(ss);
    assert ThreadOk(s, t);
    if s.core.Some? || s.refresh.Some? {
      OwnersStep(s);
    } else if Blocked(s, t) {
      assert At(s, t) == Clear(Join) && At(s, s.worker) != Worker(Dead);
      UnblockedSteps(s, s.worker);
    } else {
      UnblockedSteps(s, t);
    }
  }

  // ---- the join of clear ends ----

  /** How far a worker that has been told to stop is from its end. */
  function Rank(pc: Pc): nat {
    if !pc.Worker? then 0
    else match pc.k
      case Dead => 0
      case Quit => 1
      case Take => 2
      case WaitTest => 3
      case LockLoop => 4
      case Woken => 4
      case Sleeping => 5
      case LoopTest => 5
      case Body => 6
      case LockBody => 7
      case UnlockTake => 8
  }

  /** A worker that has been told to stop comes nearer to its end with every step. */
  lemma ToldComesNearer(s: State, t: nat, k: WorkerPc, s': State)
    requires At(s, t) == Worker(k) && WorkerStep(s, t, k, s') && !s.running
    ensures Rank(At(s', t)) < Rank(At(s, t)) && s'.worker == s.worker && s'.pc == s.pc[t := At(s', t)]
  {}

  /** While clear waits in the join, no other caller is inside, and the worker is dead or can step. */
  lemma JoinWaits(s: State, c: nat)
    requires Inv(s) && At(s, c) == Clear(Join)
    ensures !s.running && At(s, s.worker).Worker? && !Asleep(s, s.worker)
    ensures forall u: nat :: u != c ==> At(s, u) == Idle || At(s, u) == Worker(Dead) || (u == s.worker && Live(At(s, u)))
    ensures Live(At(s, s.worker)) ==> !Blocked(s, s.worker)
  {
    assert ThreadOk(s, c);
    forall u: nat | u != c ensures At(s, u) == Idle || At(s, u) == Worker(Dead) || (u == s.worker && Live(At(s, u))) {
      assert ThreadOk(s, u);
    }
    if s.core.Some? { assert HoldsCore(At(s, s.core.value)); }
    if s.refresh.Some? { assert HoldsRefresh(At(s, s.refresh.value)); }
  }

  /** While clear waits in the join, only the worker steps. */
  lemma JoinStep(s: State, t: nat, s': State, c: nat)
    requires Inv(s) && At(s, c) == Clear(Join) && PoliteNext(s, t, s')
    ensures if At(s, s.worker) == Worker(Dead) then t == c && At(s', c) == Clear(ClearAsyncOk)
            else t == s.worker && s'.worker == s.worker && At(s', c) == Clear(Join)
                 && Rank(At(s', s.worker)) < Rank(At(s, s.worker))
  {
    hide HoldsRefresh, InitStep, AsyncStep, SyncStep, WorkerStep, Rank;
    assert ThreadOk(s, c) && ThreadOk(s, t);
    JoinWaits(s, c);
    if t != c {
      assert At(s, t).Idle? || At(s, t).Worker?;
      assert Step(s, t, s') && At(s, t).Worker?;
      if At(s, t) == Worker(Dead) {
        DeadStays(s, t, s');
        assert false;
      }
      ToldComesNearer(s, t, At(s, t).k, s');
    }
  }

  lemma DeadStays(s: State, t: nat, s': State)
    requires At(s, t) == Worker(Dead)
    ensures !Step(s, t, s')
  {}

  ghost predicate Joining(ss: seq<State>, i: nat, j: nat, c: nat)
    requires i <= j < |ss|
  {
    forall k :: i <= k <= j ==> At(ss[k], c) == Clear(Join)
  }

  /** When clear does not race with refresh, its join ends: it lasts for at most eight steps of whatever
      threads, and as long as it lasts the worker, or clear itself, can step. */
  lemma {:induction false} JoinEnds(ss: seq<State>, i: nat, j: nat, c: nat)
    requires PoliteRun(ss) && i <= j < |ss| && Joining(ss, i, j, c)
    ensures j - i <= Rank(At(ss[i], ss[i].worker)) - Rank(At(ss[j], ss[j].worker)) <= 8 && ss[j].worker == ss[i].worker
    ensures Enabled(ss[j], if At(ss[j], ss[j].worker) == Worker(Dead) then c else ss[j].worker)
    decreases j - i
  {
    hide Enabled, Inv, Rank, PoliteNext, Blocked;
    InvAt(ss, j);
    RankBound(At(ss[i], ss[i].worker));
    JoinWaits(ss[j], c);
    if At(ss[j], ss[j].worker) == Worker(Dead) {
      DeadFrees(ss[j], c);
      UnblockedSteps(ss[j], c);
    } else {
      UnblockedSteps(ss[j], ss[j].worker);
    }
    if i < j {
      JoinEnds(ss, i, j - 1, c);
      InvAt(ss, j - 1);
      assert PolitelyLeads(ss[j - 1], ss[j]);
      var t: nat :| PoliteNext(ss[j - 1], t, ss[j]);
      JoinStep(ss[j - 1], t, ss[j], c);
    }
  }

  lemma RankBound(pc: Pc)
    ensures Rank(pc) <= 8
  {}

  lemma DeadFrees(s: State, c: nat)
    requires At(s, c) == Clear(Join) && At(s, s.worker) == Worker(Dead)
    ensures !Blocked(s, c)
  {}

  lemma {:induction false} InvAt(ss: seq<State>, k: nat)
    requires PoliteRun(ss) && k < |ss|
    ensures Inv(ss[k])
  {
    assert ss[..k + 1][k] == ss[k];
    RunInv(ss[..k + 1]);
  }

  // ---- and when it does race ----

  ghost predicate Reachable(s: State) {
    exists ss: seq<State> :: Run(ss) && ss[|ss| - 1] == s
  }

  lemma Reach(s: State, t: nat, s': State)
    requires Reachable(s) && Next(s, t, s')
    ensures Reachable(s')
  {
    hide Next, Initial;
    var ss :| Run(ss) && ss[|ss| - 1] == s;
    assert Leads(s, s');
    assert Run(ss + [s']);
  }

  lemma StartReachable(s: State)
    requires Initial(s)
    ensures Reachable(s)
  {
    assert Run([s]);
  }

  /** A first caller gets through xh_core_init_once. */
  lemma InitHappens(s: State, t: nat) returns (s': State)
    requires Reachable(s) && At(s, t) == Idle && s.core == None && !s.inited
    ensures Reachable(s') && s'.pc == s.pc[t := Async(ReadAsync)]
    ensures s'.core == None && s'.inited && s'.initOk && s'.asyncInited == s.asyncInited && s'.asyncInitOk == s.asyncInitOk
  {
    hide Reachable, Next;
    var s3 := InitEntered(s, t);
    s' := InitLeft(s3, t);
  }

  lemma InitEntered(s: State, t: nat) returns (s': State)
    requires Reachable(s) && At(s, t) == Idle && s.core == None && !s.inited
    ensures Reachable(s') && s' == Go(s, t, Init(TestInit, true)).(core := Some(t))
  {
    hide Reachable;
    var s1 := Go(s, t, Init(ReadInited, true));
    Reach(s, t, s1);
    var s2 := Go(s1, t, Init(LockInit, true));
    Reach(s1, t, s2);
    s' := Go(s2, t, Init(TestInit, true)).(core := Some(t));
    Reach(s2, t, s');
    assert s'.pc == s.pc[t := Init(TestInit, true)];
  }

  lemma InitLeft(s: State, t: nat) returns (s': State)
    requires Reachable(s) && At(s, t) == Init(TestInit, true) && s.core == Some(t) && !s.inited
    ensures Reachable(s') && s'.pc == s.pc[t := Async(ReadAsync)]
    ensures s'.core == None && s'.inited && s'.initOk && s'.asyncInited == s.asyncInited && s'.asyncInitOk == s.asyncInitOk
  {
    hide Reachable;
    var s4 := Go(s, t, Init(AddHandler, true)).(inited := true);
    Reach(s, t, s4);
    var s5 := Go(s4, t, Init(UnlockInit, true)).(initOk := true);
    Reach(s4, t, s5);
    var s6 := Go(s5, t, Init(CheckInit, true)).(core := None);
    Reach(s5, t, s6);
    s' := Go(s6, t, Async(ReadAsync));
    Reach(s6, t, s');
  }

  /** A caller that finds no worker creates one, w. */
  lemma CreationHappens(s: State, t: nat, w: nat) returns (s': State)
    requires Reachable(s) && At(s, t) == Async(ReadAsync) && s.core == None && !s.asyncInited && w !in s.pc && w != t
    ensures Reachable(s') && s'.pc == s.pc[w := Worker(LoopTest)][t := Async(SetAsyncOk)]
    ensures s'.core == Some(t) && s'.inited == s.inited && s'.initOk == s.initOk && s'.asyncInitOk == s.asyncInitOk
  {
    hide Reachable;
    var s1 := Go(s, t, Async(LockAsync));
    Reach(s, t, s1);
    var s2 := Go(s1, t, Async(TestAsync)).(core := Some(t));
    Reach(s1, t, s2);
    var s3 := Go(s2, t, Async(SetRunning)).(asyncInited := true);
    Reach(s2, t, s3);
    var s4 := Go(s3, t, Async(Create)).(running := true);
    Reach(s3, t, s4);
    s' := Go(Go(s4, w, Worker(LoopTest)), t, Async(SetAsyncOk)).(worker := w);
    assert Created(s4, t, w, s');
    Reach(s4, t, s');
  }

  /** A clear that starts while the first asynchronous refresh creates the worker forgets it, and
      the next refresh creates another. */
  lemma RaceMakesTwoWorkers()
    ensures exists s: State :: Reachable(s) && Live(At(s, 11)) && Live(At(s, 12))
  {
    hide Reachable, Next;
    var s0 := State(map[], None, None, false, false, false, false, false, false, 0);
    StartReachable(s0);
    var s1 := InitHappens(s0, 1);
    var s2 := CreationHappens(s1, 1, 11);
    var s3 := WorkerForgotten(s2, 1, 2, 3);
    var s4 := CreationHappens(s3, 3, 12);
    assert Live(At(s4, 11)) && Live(At(s4, 12));
  }

  /** Thread c runs clear past the flag while t has yet to report the worker; then u comes. */
  lemma WorkerForgotten(s: State, t: nat, c: nat, u: nat) returns (s': State)
    requires Reachable(s) && At(s, t) == Async(SetAsyncOk) && s.core == Some(t) && At(s, c) == Idle && At(s, u) == Idle
    requires s.inited && s.initOk && !s.asyncInitOk && c != u
    ensures Reachable(s') && !s'.asyncInited && s'.core == None && At(s', u) == Async(ReadAsync)
    ensures s'.pc == s.pc[c := Clear(ClearInitOk)][t := Async(CheckAsync)][u := Async(ReadAsync)]
  {
    hide Reachable, Next;
    var s1 := FlagCleared(s, c);
    var s2 := WorkerReported(s1, t);
    s' := CallerComes(s2, u);
  }

  lemma FlagCleared(s: State, c: nat) returns (s': State)
    requires Reachable(s) && At(s, c) == Idle && !s.asyncInitOk
    ensures Reachable(s') && s' == Go(s, c, Clear(ClearInitOk)).(asyncInited := false)
  {
    hide Reachable;
    var s1 := Go(s, c, Clear(ReadAsyncOk));
    Reach(s, c, s1);
    var s2 := Go(s1, c, Clear(ClearAsync));
    Reach(s1, c, s2);
    var s3 := Go(s2, c, Clear(ClearInitOk)).(asyncInited := false);
    Reach(s2, c, s3);
    assert s3.pc == s.pc[c := Clear(ClearInitOk)];
    s' := s3;
  }

  lemma WorkerReported(s: State, t: nat) returns (s': State)
    requires Reachable(s) && At(s, t) == Async(SetAsyncOk) && s.core == Some(t)
    ensures Reachable(s') && s' == Go(s, t, Async(CheckAsync)).(asyncInitOk := true, core := None)
  {
    hide Reachable;
    var s1 := Go(s, t, Async(UnlockAsync)).(asyncInitOk := true);
    Reach(s, t, s1);
    s' := Go(s1, t, Async(CheckAsync)).(core := None);
    Reach(s1, t, s');
    assert s'.pc == s.pc[t := Async(CheckAsync)];
  }

  lemma CallerComes(s: State, u: nat) returns (s': State)
    requires Reachable(s) && At(s, u) == Idle && s.inited && s.initOk
    ensures Reachable(s') && s' == Go(s, u, Async(ReadAsync))
  {
    hide Reachable;
    var s1 := Go(s, u, Init(ReadInited, true));
    Reach(s, u, s1);
    var s2 := Go(s1, u, Init(CheckInit, true));
    Reach(s1, u, s2);
    s' := Go(s2, u, Async(ReadAsync));
    Reach(s2, u, s');
    assert s'.pc == s.pc[u := Async(ReadAsync)];
  }
}
