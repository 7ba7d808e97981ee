/** What the calls of xh_core.c come to: requests and refreshes, synchronous and asynchronous, and clear. */
module AsyncServed {
  import opened Async
  import opened Wrappers

  // ---- what a step does to the flags ----

  ghost predicate Flags(s: State, t: nat, s': State) {
    var pc := At(s, t);
    && s'.pending == (pc == Async(Request) || (s.pending && !(pc == Worker(Take) && s.running)))
    && (pc == Worker(Take) ==> At(s', t) == Worker(if s.running then UnlockTake else Quit))
    && s'.running == (pc == Async(SetRunning) ||
         (s.running && pc != Clear(Stop) && !(pc == Async(Create) && At(s', t) == Async(UnlockAsync))))
    && s'.asyncInitOk == (pc == Async(SetAsyncOk) || (s.asyncInitOk && pc != Clear(ClearAsyncOk)))
    && s'.asyncInited == (pc == Async(TestAsync) || (s.asyncInited && pc != Clear(ClearAsync)))
    && s'.inited == ((pc.Init? && pc.i == TestInit) || (s.inited && pc != Clear(ClearInited)))
    && (s'.initOk <==> (s.initOk && pc != Clear(ClearInitOk)) || (pc.Init? && pc.i == AddHandler && s'.initOk))
    && (s'.worker == s.worker || (pc == Async(Create) && At(s', t) == Async(SetAsyncOk)))
  }

  ghost predicate AllSame(s: State, s': State) {
    && s'.inited == s.inited && s'.initOk == s.initOk && s'.asyncInited == s.asyncInited && s'.asyncInitOk == s.asyncInitOk
    && s'.running == s.running && s'.pending == s.pending && s'.worker == s.worker
  }

  lemma FlagsStay(s: State, t: nat, s': State)
    requires AllSame(s, s')
    requires Quiet(At(s, t))
    ensures Flags(s, t, s')
  {
    hide At;
  }

  /** Steps from here change no flag. */
  predicate Quiet(pc: Pc) {
    match pc
    case Idle => true
    case Init(i, a) => i != TestInit && i != AddHandler
    case Async(r) => r != Request && r != SetRunning && r != Create && r != SetAsyncOk && r != TestAsync
    case Sync(y) => true
    case Worker(k) => k != Take
    case Clear(c) => c != Stop && c != ClearAsyncOk && c != ClearAsync && c != ClearInitOk && c != ClearInited
  }

  lemma GoSame(s: State, t: nat, pc: Pc)
    ensures AllSame(s, Go(s, t, pc))
  {}

  lemma SignalSame(s: State, t: nat, pc: Pc, s': State)
    requires Signal(s, t, pc, s')
    ensures AllSame(s, s')
  {
    hide Asleep, Go, AllSame;
    if u: nat :| Asleep(s, u) && s' == Go(Go(s, u, Worker(Woken)), t, pc) {
      GoSame(s, u, Worker(Woken));
      GoSame(Go(s, u, Worker(Woken)), t, pc);
      SameTwice(s, Go(s, u, Worker(Woken)), s');
    } else {
      GoSame(s, t, pc);
    }
  }

  lemma SameTwice(s: State, s': State, s'': State)
    requires AllSame(s, s') && AllSame(s', s'')
    ensures AllSame(s, s'')
  {}

  lemma SignalFlags(s: State, t: nat, pc: Pc, s': State)
    requires Signal(s, t, pc, s') && (At(s, t) == Async(SignalRequest) || At(s, t) == Clear(SignalStop))
    ensures Flags(s, t, s')
  {
    hide At, Signal, AllSame, Flags;
    SignalSame(s, t, pc, s');
    FlagsStay(s, t, s');
  }

  lemma InitFlags(s: State, t: nat, i: InitPc, a: bool, s': State)
    requires At(s, t) == Init(i, a) && InitStep(s, t, i, a, s')
    ensures Flags(s, t, s')
  {
    match i
    case ReadInited => FlagsStay(s, t, s');
    case LockInit => FlagsStay(s, t, s');
    case TestInit =>
    case AddHandler =>
    case UnlockInit => FlagsStay(s, t, s');
    case CheckInit => FlagsStay(s, t, s');
  }

  lemma AsyncFlags(s: State, t: nat, r: AsyncPc, s': State)
    requires At(s, t) == Async(r) && AsyncStep(s, t, r, s')
    ensures Flags(s, t, s')
  {
    hide Signal;
    match r
    case ReadAsync => FlagsStay(s, t, s');
    case LockAsync => FlagsStay(s, t, s');
    case TestAsync =>
    case SetRunning =>
    case Create =>
    case SetAsyncOk =>
    case UnlockAsync => FlagsStay(s, t, s');
    case CheckAsync => FlagsStay(s, t, s');
    case LockRequest => FlagsStay(s, t, s');
    case Request =>
    case SignalRequest => SignalFlags(s, t, Async(UnlockRequest), s');
    case UnlockRequest => FlagsStay(s, t, s');
  }

  lemma WorkerFlags(s: State, t: nat, k: WorkerPc, s': State)
    requires At(s, t) == Worker(k) && WorkerStep(s, t, k, s')
    ensures Flags(s, t, s')
  {
    if k != Take { FlagsStay(s, t, s'); }
  }

  lemma ClearFlags(s: State, t: nat, c: ClearPc, s': State)
    requires At(s, t) == Clear(c) && ClearStep(s, t, c, s')
    ensures Flags(s, t, s')
  {
    hide Signal;
    match c
    case SignalStop => SignalFlags(s, t, Clear(UnlockStop), s');
    case Stop =>
    case ClearAsyncOk =>
    case ClearAsync =>
    case ClearInitOk =>
    case ClearInited =>
    case _ => FlagsStay(s, t, s');
  }

  lemma SyncFlags(s: State, t: nat, y: SyncPc, s': State)
    requires At(s, t) == Sync(y) && SyncStep(s, t, y, s')
    ensures Flags(s, t, s')
  {
    hide Flags;
    FlagsStay(s, t, s');
  }

  lemma CallFlags(s: State, t: nat, s': State)
    requires Call(s, t, s') || Spurious(s, t, s')
    ensures Flags(s, t, s')
  {
    hide Flags;
    assert At(s, t) == Idle || At(s, t) == Worker(Sleeping);
    CallSame(s, t, s');
    FlagsStay(s, t, s');
  }

  lemma CallSame(s: State, t: nat, s': State)
    requires Call(s, t, s') || Spurious(s, t, s')
    ensures AllSame(s, s')
  {
    hide At, Asleep, Go, AllSame;
    if Spurious(s, t, s') {
      GoSame(s, t, Worker(Woken));
    } else if s' == Go(s, t, Clear(ReadAsyncOk)) {
      GoSame(s, t, Clear(ReadAsyncOk));
    } else {
      var a :| s' == Go(s, t, Init(ReadInited, a));
      GoSame(s, t, Init(ReadInited, a));
    }
  }

  lemma NextFlags(s: State, t: nat, s': State)
    requires Next(s, t, s')
    ensures Flags(s, t, s')
  {
    hide InitStep, AsyncStep, SyncStep, WorkerStep, ClearStep, Call, Spurious, Flags, At;
    if Step(s, t, s') {
      match At(s, t)
      case Init(i, a) => InitFlags(s, t, i, a, s');
      case Async(r) => AsyncFlags(s, t, r, s');
      case Sync(y) => SyncFlags(s, t, y, s');
      case Worker(k) => WorkerFlags(s, t, k, s');
      case Clear(c) => ClearFlags(s, t, c, s');
    } else {
      CallFlags(s, t, s');
    }
  }

  /** A thread that is neither outside nor asleep moves by its own steps only. */
  lemma OnlyItself(s: State, t: nat, u: nat, s': State)
    requires Next(s, t, s') && u != t && At(s, u) != Idle && !Asleep(s, u)
    ensures At(s', u) == At(s, u)
  {
    hide Next;
    NextMoves(s, t, s');
  }

  // ---- a request is served, in every run ----

  /** A worker has taken a request and is on its way to the refresh. */
  predicate Serving(pc: Pc) {
    pc == Worker(UnlockTake) || pc == Worker(LockBody)
  }

  /** A refresh is due. */
  ghost predicate Due(s: State) {
    s.pending || exists u: nat :: Serving(At(s, u))
  }

  /** A worker begins the refresh. */
  predicate Begins(s: State, u: nat, s': State) {
    At(s, u) == Worker(LockBody) && At(s', u) == Worker(Body)
  }

  lemma ServingStep(s: State, t: nat, s': State)
    requires Next(s, t, s') && Serving(At(s, t))
    ensures At(s', t) == Worker(if At(s, t) == Worker(UnlockTake) then LockBody else Body)
  {
    hide WorkerStep, Call, Spurious;
    assert Step(s, t, s') by { NotCalled(s, t, s'); }
    WorkerGoes(s, t, At(s, t).k, s');
  }

  lemma NotCalled(s: State, t: nat, s': State)
    requires At(s, t) != Idle && !Asleep(s, t)
    ensures !Call(s, t, s') && !Spurious(s, t, s')
  {}

  lemma DueKept(s: State, t: nat, s': State)
    requires Next(s, t, s') && Due(s)
    ensures Due(s') || Begins(s, t, s')
  {
    hide Next, At;
    NextFlags(s, t, s');
    if u: nat :| Serving(At(s, u)) {
      if u == t { ServingStep(s, t, s'); } else { OnlyItself(s, t, u, s'); }
      assert Serving(At(s', u)) || Begins(s, t, s');
    } else if !s'.pending {
      assert Serving(At(s', t));
    }
  }

  /** Thread t requests a refresh between states i and i + 1. */
  ghost predicate RequestsAt(ss: seq<State>, i: nat, t: nat)
    requires i + 1 < |ss|
  {
    Requests(ss[i], t, ss[i + 1])
  }

  predicate Requests(s: State, t: nat, s': State) {
    At(s, t) == Async(Request) && At(s', t) == Async(SignalRequest)
  }

  /** Some worker begins a refresh between states k and k + 1. */
  ghost predicate BeginsAt(ss: seq<State>, k: nat)
    requires k + 1 < |ss|
  {
    Begun(ss[k], ss[k + 1])
  }

  ghost predicate Begun(s: State, s': State) {
    exists u: nat :: Begins(s, u, s')
  }

  ghost predicate BegunBetween(ss: seq<State>, i: nat, j: nat)
    requires j < |ss|
  {
    exists k: nat :: i <= k < j && BeginsAt(ss, k)
  }

  /** The request itself makes a refresh due. */
  lemma RequestDue(ss: seq<State>, i: nat, t: nat)
    requires Run(ss) && i + 1 < |ss| && RequestsAt(ss, i, t)
    ensures Due(ss[i + 1])
  {
    hide Next, Initial;
    assert Leads(ss[i], ss[i + 1]);
    var u: nat :| Next(ss[i], u, ss[i + 1]);
    if u != t { OnlyItself(ss[i], u, t, ss[i + 1]); }
    NextFlags(ss[i], t, ss[i + 1]);
  }

  /** In every run: from a request on, a refresh is due until a worker begins one. */
  lemma {:induction false} RequestServed(ss: seq<State>, i: nat, j: nat, t: nat)
    requires Run(ss) && i < j < |ss| && RequestsAt(ss, i, t)
    ensures Due(ss[j]) || BegunBetween(ss, i + 1, j)
    decreases j
  {
    hide Next, Initial, Due, Begins;
    if j == i + 1 {
      RequestDue(ss, i, t);
    } else {
      RequestServed(ss, i, j - 1, t);
      assert Leads(ss[j - 1], ss[j]);
      var u: nat :| Next(ss[j - 1], u, ss[j]);
      if Due(ss[j - 1]) {
        DueKept(ss[j - 1], u, ss[j]);
        assert Begins(ss[j - 1], u, ss[j]) ==> BeginsAt(ss, j - 1);
      } else {
        var k :| i + 1 <= k < j - 1 && BeginsAt(ss, k);
        assert BeginsAt(ss, k);
      }
    }
  }

  // ---- what a call does before it returns ----

  /** Inside an asynchronous refresh, before the request. */
  predicate Asking(pc: Pc) {
    (pc.Init? && pc.async) || (pc.Async? && pc.r != SignalRequest && pc.r != UnlockRequest)
  }

  /** Inside a synchronous refresh, before its body. */
  predicate Waiting(pc: Pc) {
    (pc.Init? && !pc.async) || pc == Sync(LockSync)
  }

  /** Inside clear, before the end of the teardown. */
  predicate Clearing(pc: Pc) {
    pc.Clear? && pc.c != UnlockTeardown
  }

  lemma InitGoes(s: State, t: nat, i: InitPc, a: bool, s': State)
    requires At(s, t) == Init(i, a) && InitStep(s, t, i, a, s')
    ensures var pc := At(s', t);
      || (pc.Init? && pc.async == a)
      || (i == CheckInit && pc == if !s.initOk then Idle else if a then Async(ReadAsync) else Sync(LockSync))
  {}

  lemma AsyncGoes(s: State, t: nat, r: AsyncPc, s': State)
    requires At(s, t) == Async(r) && AsyncStep(s, t, r, s') && Asking(Async(r))
    ensures var pc := At(s', t);
      || (Asking(pc) && pc.Async?) || (r == Request && pc == Async(SignalRequest))
      || (r == CheckAsync && !s.asyncInitOk && pc == Idle)
  {
    hide Signal;
  }

  lemma ClearGoes(s: State, t: nat, c: ClearPc, s': State)
    requires At(s, t) == Clear(c) && ClearStep(s, t, c, s') && c != UnlockTeardown
    ensures At(s', t).Clear? && (At(s', t).c == UnlockTeardown ==> c == Teardown)
  {
    hide Signal;
    if c == SignalStop { SignalGoes(s, t, Clear(UnlockStop), s'); }
  }

  lemma SignalGoes(s: State, t: nat, pc: Pc, s': State)
    requires Signal(s, t, pc, s')
    ensures At(s', t) == pc
  {
    hide Asleep, Go, At;
    if u: nat :| Asleep(s, u) && s' == Go(Go(s, u, Worker(Woken)), t, pc) {
      GoAt(Go(s, u, Worker(Woken)), t, pc);
    } else {
      GoAt(s, t, pc);
    }
  }

  lemma GoAt(s: State, t: nat, pc: Pc)
    ensures At(Go(s, t, pc), t) == pc
  {}

  /** The request, or the error return for want of the signal handler or of a worker. */
  ghost predicate AskEnds(s: State, t: nat, s': State) {
    Requests(s, t, s') || Refused(s, t, s')
  }

  ghost predicate Refused(s: State, t: nat, s': State) {
    At(s', t) == Idle && ((At(s, t) == Init(CheckInit, true) && !s.initOk) || (At(s, t) == Async(CheckAsync) && !s.asyncInitOk))
  }

  /** The body, under the refresh mutex, or the error return for want of the signal handler. */
  ghost predicate WaitEnds(s: State, t: nat, s': State) {
    || (At(s, t) == Sync(LockSync) && At(s', t) == Sync(SyncBody) && s.refresh == None && s'.refresh == Some(t))
    || (At(s, t) == Init(CheckInit, false) && !s.initOk && At(s', t) == Idle)
  }

  ghost predicate ClearEnds(s: State, t: nat, s': State) {
    At(s, t) == Clear(Teardown) && At(s', t) == Clear(UnlockTeardown)
  }

  lemma InsideSteps(s: State, t: nat, s': State)
    requires Next(s, t, s') && (Asking(At(s, t)) || Waiting(At(s, t)) || Clearing(At(s, t)))
    ensures Step(s, t, s')
  {
    hide Step, Call, Spurious;
    NotCalled(s, t, s');
  }

  lemma AskStep(s: State, t: nat, u: nat, s': State)
    requires Next(s, u, s') && Asking(At(s, t)) && !Asking(At(s', t))
    ensures AskEnds(s, t, s')
  {
    hide Next, At, InitStep, AsyncStep;
    if u != t { OnlyItself(s, u, t, s'); }
    InsideSteps(s, t, s');
    match At(s, t)
    case Init(i, a) => InitGoes(s, t, i, a, s');
    case Async(r) => AsyncGoes(s, t, r, s');
  }

  lemma WaitStep(s: State, t: nat, u: nat, s': State)
    requires Next(s, u, s') && Waiting(At(s, t)) && !Waiting(At(s', t))
    ensures WaitEnds(s, t, s')
  {
    hide Next, At, InitStep;
    if u != t { OnlyItself(s, u, t, s'); }
    InsideSteps(s, t, s');
    match At(s, t)
    case Init(i, a) => InitGoes(s, t, i, a, s');
    case Sync(y) => LocksSync(s, t, s');
  }

  lemma LocksSync(s: State, t: nat, s': State)
    requires SyncStep(s, t, LockSync, s')
    ensures At(s', t) == Sync(SyncBody) && s.refresh == None && s'.refresh == Some(t)
  {}

  lemma TearStep(s: State, t: nat, u: nat, s': State)
    requires Next(s, u, s') && Clearing(At(s, t)) && !Clearing(At(s', t))
    ensures ClearEnds(s, t, s')
  {
    hide Next, At, ClearStep;
    if u != t { OnlyItself(s, u, t, s'); }
    InsideSteps(s, t, s');
    ClearGoes(s, t, At(s, t).c, s');
  }

  /** A thread that has left a part of the program has left it at some step. */
  lemma {:induction false} Leaves(ss: seq<State>, k: nat, l: nat, t: nat, part: Pc -> bool) returns (m: nat)
    requires k <= l < |ss| && part(At(ss[k], t)) && !part(At(ss[l], t))
    ensures k <= m < l && part(At(ss[m], t)) && !part(At(ss[m + 1], t))
    decreases l - k
  {
    if part(At(ss[l - 1], t)) { m := l - 1; } else { m := Leaves(ss, k, l - 1, t, part); }
  }

  ghost predicate Within(ss: seq<State>, k: nat, l: nat, m: nat) {
    k <= m < l < |ss|
  }

  lemma AskDone(ss: seq<State>, k: nat, l: nat, t: nat) returns (m: nat)
    requires Run(ss) && k <= l < |ss| && At(ss[k], t) == Init(ReadInited, true) && At(ss[l], t) == Idle
    ensures Within(ss, k, l, m) && AskEnds(ss[m], t, ss[m + 1])
  {
    hide Next, Initial, AskEnds;
    m := Leaves(ss, k, l, t, Asking);
    assert Leads(ss[m], ss[m + 1]);
    var u: nat :| Next(ss[m], u, ss[m + 1]);
    AskStep(ss[m], t, u, ss[m + 1]);
  }

  /** In every run: an asynchronous refresh has made its request when it returns, or had no signal handler
      or no worker; a synchronous one has run its body, or had no signal handler; a clear has been through
      the teardown. */
  lemma CallsDo(ss: seq<State>, k: nat, l: nat, t: nat)
    requires Run(ss) && k <= l < |ss| && At(ss[l], t) == Idle
    ensures At(ss[k], t) == Init(ReadInited, true) ==> exists m: nat :: Within(ss, k, l, m) && AskEnds(ss[m], t, ss[m + 1])
    ensures At(ss[k], t) == Init(ReadInited, false) ==> exists m: nat :: Within(ss, k, l, m) && WaitEnds(ss[m], t, ss[m + 1])
    ensures At(ss[k], t) == Clear(ReadAsyncOk) ==> exists m: nat :: Within(ss, k, l, m) && ClearEnds(ss[m], t, ss[m + 1])
  {
    hide Next, Initial, AskEnds, WaitEnds, ClearEnds, Requests;
    if At(ss[k], t) == Init(ReadInited, true) {
      var m := AskDone(ss, k, l, t);
      assert Within(ss, k, l, m);
    }
    if At(ss[k], t) == Init(ReadInited, false) {
      var m := Leaves(ss, k, l, t, Waiting);
      assert Leads(ss[m], ss[m + 1]);
      var u: nat :| Next(ss[m], u, ss[m + 1]);
      WaitStep(ss[m], t, u, ss[m + 1]);
      assert Within(ss, k, l, m);
    }
    if At(ss[k], t) == Clear(ReadAsyncOk) {
      var m := Leaves(ss, k, l, t, Clearing);
      assert Leads(ss[m], ss[m + 1]);
      var u: nat :| Next(ss[m], u, ss[m + 1]);
      TearStep(ss[m], t, u, ss[m + 1]);
      assert Within(ss, k, l, m);
    }
  }

  /** In every run: an asynchronous refresh that has returned without an error has had its refresh begun by
      a worker, or it is due. */
  lemma AsyncCallServed(ss: seq<State>, k: nat, l: nat, t: nat)
    requires Run(ss) && k <= l < |ss| && At(ss[k], t) == Init(ReadInited, true) && At(ss[l], t) == Idle
    ensures
      || Due(ss[l]) || BegunBetween(ss, k, l)
      || exists m: nat :: Within(ss, k, l, m) && Refused(ss[m], t, ss[m + 1])
  {
    hide Run, Due, BegunBetween, Requests, Refused, At;
    var m := AskDone(ss, k, l, t);
    if Requests(ss[m], t, ss[m + 1]) {
      RequestServed(ss, m, l, t);
      if BegunBetween(ss, m + 1, l) { BegunSince(ss, k, m + 1, l); }
    }
  }

  lemma BegunSince(ss: seq<State>, i: nat, j: nat, l: nat)
    requires i <= j && l < |ss| && BegunBetween(ss, j, l)
    ensures BegunBetween(ss, i, l)
  {
    hide BeginsAt;
  }

  // ---- no refresh that was not asked for, in every run ----

  /** Who takes each step of a run. */
  ghost predicate Scheduled(ss: seq<State>, ts: seq<nat>) {
    |ss| == |ts| + 1 && Initial(ss[0]) && forall i :: 0 <= i < |ts| ==> Next(ss[i], ts[i], ss[i + 1])
  }

  /** The requests of a run. */
  ghost function RequestCount(ss: seq<State>, ts: seq<nat>): nat
    requires |ss| == |ts| + 1
    decreases |ts|
  {
    if ts == [] then 0
    else
      var n := |ts| - 1;
      RequestCount(ss[..n + 1], ts[..n]) + if Requests(ss[n], ts[n], ss[n + 1]) then 1 else 0
  }

  /** The refreshes that workers have begun. */
  ghost function BeginCount(ss: seq<State>, ts: seq<nat>): nat
    requires |ss| == |ts| + 1
    decreases |ts|
  {
    if ts == [] then 0
    else
      var n := |ts| - 1;
      BeginCount(ss[..n + 1], ts[..n]) + if Begins(ss[n], ts[n], ss[n + 1]) then 1 else 0
  }

  ghost function Servers(s: State): set<nat> {
    set t | t in s.pc && Serving(s.pc[t])
  }

  /** A worker that is to take a request finds one, or is to stop. */
  ghost predicate TakeOk(s: State) {
    forall t: nat :: At(s, t) == Worker(Take) ==> s.pending || !s.running
  }

  lemma CallerStays(s: State, t: nat, s': State)
    requires Next(s, t, s') && !At(s, t).Worker?
    ensures !At(s', t).Worker?
  {
    hide InitStep, AsyncStep, SyncStep, ClearStep, Spurious;
    if Step(s, t, s') {
      match At(s, t)
      case Init(i, a) => InitGoes(s, t, i, a, s');
      case Async(r) => AsyncCaller(s, t, r, s');
      case Sync(y) => SyncCaller(s, t, y, s');
      case Clear(c) => ClearCaller(s, t, c, s');
    } else {
      assert Call(s, t, s') by { NotSpurious(s, t, s'); }
    }
  }

  lemma NotSpurious(s: State, t: nat, s': State)
    requires !At(s, t).Worker?
    ensures !Spurious(s, t, s')
  {}

  lemma SyncCaller(s: State, t: nat, y: SyncPc, s': State)
    requires SyncStep(s, t, y, s')
    ensures !At(s', t).Worker?
  {}

  lemma AsyncCaller(s: State, t: nat, r: AsyncPc, s': State)
    requires At(s, t) == Async(r) && AsyncStep(s, t, r, s')
    ensures !At(s', t).Worker?
  {
    hide Signal;
    if r == SignalRequest {
      SignalGoes(s, t, Async(UnlockRequest), s');
    } else if r != UnlockRequest {
      AsyncGoes(s, t, r, s');
    }
  }

  lemma ClearCaller(s: State, t: nat, c: ClearPc, s': State)
    requires At(s, t) == Clear(c) && ClearStep(s, t, c, s')
    ensures !At(s', t).Worker?
  {
    hide Signal;
    if c != UnlockTeardown { ClearGoes(s, t, c, s'); }
  }

  lemma WorkerGoesOn(s: State, t: nat, s': State)
    requires Next(s, t, s') && At(s, t).Worker? && At(s', t) != Worker(Woken)
    ensures At(s', t) == Worker(WorkerNext(s, At(s, t).k)) && Step(s, t, s')
  {
    hide WorkerStep, Call;
    if Spurious(s, t, s') { assert false; }
    assert !Call(s, t, s') by { WorkersAreInside(s, t, s'); }
    WorkerGoes(s, t, At(s, t).k, s');
  }

  lemma WorkersAreInside(s: State, t: nat, s': State)
    requires At(s, t).Worker?
    ensures !Call(s, t, s')
  {}

  /** Where the worker takes a request and where it is on its way with one. */
  lemma ServingArises(s: State, t: nat, s': State)
    requires Next(s, t, s')
    ensures Serving(At(s', t)) <==> At(s, t) == Worker(UnlockTake) || (At(s, t) == Worker(Take) && s.running)
    ensures At(s', t) == Worker(Take) <==> At(s, t) == Worker(WaitTest) && (s.pending || !s.running)
  {
    hide Next, At;
    if !At(s, t).Worker? {
      CallerStays(s, t, s');
    } else if At(s', t) != Worker(Woken) {
      WorkerGoesOn(s, t, s');
      WorkerNextServing(s, At(s, t).k);
    } else {
      WokenSlept(s, t, s');
    }
  }

  lemma WorkerNextServing(s: State, k: WorkerPc)
    ensures Serving(Worker(WorkerNext(s, k))) <==> k == UnlockTake || (k == Take && s.running)
    ensures WorkerNext(s, k) == Take <==> k == WaitTest && (s.pending || !s.running)
  {}

  lemma WokenSlept(s: State, t: nat, s': State)
    requires Next(s, t, s') && At(s, t).Worker? && At(s', t) == Worker(Woken)
    ensures Asleep(s, t)
  {
    hide WorkerStep;
    if Step(s, t, s') {
      WorkerGoes(s, t, At(s, t).k, s');
    }
  }

  lemma OthersServe(s: State, t: nat, u: nat, s': State)
    requires Moves(s, t, s') && u != t
    ensures Serving(At(s', u)) <==> Serving(At(s, u))
    ensures At(s', u) == Worker(Take) <==> At(s, u) == Worker(Take)
    ensures At(s', u).Clear? <==> At(s, u).Clear?
  {
    hide CoreMoves, RefreshMoves;
  }

  lemma TakeKept(s: State, t: nat, s': State)
    requires Owned(s) && TakeOk(s) && Next(s, t, s')
    ensures TakeOk(s')
  {
    hide Next, HoldsRefresh, Moves;
    NextMoves(s, t, s');
    NextFlags(s, t, s');
    ServingArises(s, t, s');
    forall u: nat | At(s', u) == Worker(Take) ensures s'.pending || !s'.running {
      if u != t {
        OthersServe(s, t, u, s');
        assert s.core == Some(u);
        assert s.core != Some(t);
      }
    }
  }

  ghost function Pending(s: State): nat { if s.pending then 1 else 0 }

  lemma InServers(s: State, t: nat)
    ensures t in Servers(s) <==> Serving(At(s, t))
  {}

  lemma ServersMove(s: State, t: nat, s': State)
    requires Next(s, t, s')
    ensures Servers(s') == if Serving(At(s', t)) then Servers(s) + {t} else Servers(s) - {t}
  {
    hide Next, Servers, At, Moves;
    NextMoves(s, t, s');
    forall u: nat ensures u in Servers(s') <==> Serving(At(s', u)) { InServers(s', u); }
    forall u: nat ensures u in Servers(s) <==> Serving(At(s, u)) { InServers(s, u); }
    forall u: nat | u != t ensures Serving(At(s', u)) <==> Serving(At(s, u)) { OthersServe(s, t, u, s'); }
  }

  /** A step moves a request from pending to a worker, or from a worker to its refresh. */
  lemma Balanced(s: State, t: nat, s': State)
    requires TakeOk(s) && Next(s, t, s')
    ensures (if Begins(s, t, s') then 1 else 0) + |Servers(s')| + Pending(s') <=
      |Servers(s)| + Pending(s) + if Requests(s, t, s') then 1 else 0
  {
    hide Next, Servers, At;
    NextFlags(s, t, s');
    ServersMove(s, t, s');
    ServingArises(s, t, s');
    InServers(s, t);
    if Serving(At(s, t)) { ServingStep(s, t, s'); }
    if At(s, t) == Async(Request) { RequestStep(s, t, s'); }
  }

  lemma RequestStep(s: State, t: nat, s': State)
    requires Next(s, t, s') && At(s, t) == Async(Request)
    ensures At(s', t) == Async(SignalRequest)
  {
    hide Call, Spurious;
    NotCalled(s, t, s');
  }

  /** In every run, with any number of workers: the refreshes begun, those on their way and the one pending
      are never more than the requests. */
  lemma {:induction false} NotMoreThanAsked(ss: seq<State>, ts: seq<nat>)
    requires Scheduled(ss, ts)
    ensures Owned(ss[|ts|]) && TakeOk(ss[|ts|])
    ensures BeginCount(ss, ts) + |Servers(ss[|ts|])| + Pending(ss[|ts|]) <= RequestCount(ss, ts)
    decreases |ts|
  {
    hide Next, Owned, TakeOk, Servers;
    if ts == [] {
      OwnedInitially(ss[0]);
      NoneServes(ss[0]);
    } else {
      var n := |ts| - 1;
      assert ss[..n + 1][n] == ss[n];
      NotMoreThanAsked(ss[..n + 1], ts[..n]);
      OwnedKept(ss[n], ts[n], ss[n + 1]);
      TakeKept(ss[n], ts[n], ss[n + 1]);
      Balanced(ss[n], ts[n], ss[n + 1]);
    }
  }

  lemma NoneServes(s: State)
    requires Initial(s)
    ensures Servers(s) == {} && TakeOk(s) && Pending(s) == 0
  {}

  // ---- when clear does not race: the flags ----

  /** Clear has put the flag down. */
  predicate Lowered(pc: Pc, i: nat) {
    pc.Clear? && match pc.c
      case ClearAsync => i < 1
      case ClearInitOk => i < 2
      case ClearInited => i < 3
      case LockTeardown => true
      case LockTeardownRefresh => true
      case Teardown => true
      case UnlockTeardown => true
      case _ => false
  }

  predicate Asked(pc: Pc) {
    pc == Async(LockRequest) || pc == Async(Request) || pc == Async(SignalRequest) || pc == Async(UnlockRequest)
  }

  predicate Stopped(pc: Pc) {
    Told(pc) || pc == Clear(ClearAsyncOk)
  }

  /** What the place of thread t says about the flags. */
  ghost predicate FlagsOk(s: State, t: nat) {
    var pc := At(s, t);
    && (Starting(pc) || pc == Async(SetAsyncOk) ==> !s.asyncInitOk)
    && (pc == Async(Create) || pc == Async(SetAsyncOk) ==> s.running)
    && (Asked(pc) ==> s.asyncInitOk)
    && (Lowered(pc, 0) ==> !s.asyncInitOk) && (Lowered(pc, 1) ==> !s.asyncInited)
    && (Lowered(pc, 2) ==> !s.initOk) && (Lowered(pc, 3) ==> !s.inited)
  }

  /** Once the worker has been reported it is to run, until clear stops it. */
  ghost predicate Ready(s: State) {
    && (s.asyncInitOk ==> s.asyncInited)
    && (s.asyncInitOk ==> s.running || exists c: nat :: Stopped(At(s, c)))
    && forall t: nat :: FlagsOk(s, t)
  }

  lemma ReadyInitially(s: State)
    requires Initial(s)
    ensures Ready(s)
  {}

  /** Where a step may lead that concerns the flags. */
  ghost predicate Path(s: State, t: nat, s': State) {
    var pc, pc' := At(s, t), At(s', t);
    && (pc' == Async(SetRunning) ==> pc == Async(TestAsync) && !s.asyncInited)
    && (pc' == Async(Create) ==> pc == Async(SetRunning))
    && (pc' == Async(SetAsyncOk) ==> pc == Async(Create))
    && (Asked(pc') ==> Asked(pc) || (pc == Async(CheckAsync) && s.asyncInitOk))
    && (Lowered(pc', 0) ==> Lowered(pc, 0) || pc == Clear(ClearAsyncOk) || (pc == Clear(ReadAsyncOk) && !s.asyncInitOk))
    && (Lowered(pc', 1) ==> Lowered(pc, 1) || pc == Clear(ClearAsync))
    && (Lowered(pc', 2) ==> Lowered(pc, 2) || pc == Clear(ClearInitOk))
    && (Lowered(pc', 3) ==> Lowered(pc, 3) || pc == Clear(ClearInited))
    && (Stopped(pc) ==> Stopped(pc') || pc == Clear(ClearAsyncOk))
    && (pc == Clear(Stop) ==> Stopped(pc'))
    && ((pc.Init? && (pc.i == TestInit || pc.i == AddHandler)) || pc == Async(TestAsync) || pc == Async(SetAsyncOk) ==> !pc'.Clear?)
  }

  lemma InitPath(s: State, t: nat, i: InitPc, a: bool, s': State)
    requires At(s, t) == Init(i, a) && InitStep(s, t, i, a, s')
    ensures Path(s, t, s')
  {
    hide InitStep;
    InitGoes(s, t, i, a, s');
  }

  lemma AsyncPath(s: State, t: nat, r: AsyncPc, s': State)
    requires At(s, t) == Async(r) && AsyncStep(s, t, r, s')
    ensures Path(s, t, s')
  {
    hide Signal, Path, AsyncStep, At;
    AsyncLeads(s, t, r, s');
    PathFrom(s, t, r, s');
  }

  lemma AsyncLeads(s: State, t: nat, r: AsyncPc, s': State)
    requires At(s, t) == Async(r) && AsyncStep(s, t, r, s')
    ensures var pc := At(s', t);
      match r
      case ReadAsync => pc == Async(if s.asyncInited then CheckAsync else LockAsync)
      case LockAsync => pc == Async(TestAsync)
      case TestAsync => pc == Async(if s.asyncInited then UnlockAsync else SetRunning)
      case SetRunning => pc == Async(Create)
      case Create => pc == Async(UnlockAsync) || pc == Async(SetAsyncOk)
      case SetAsyncOk => pc == Async(UnlockAsync)
      case UnlockAsync => pc == Async(CheckAsync)
      case CheckAsync => pc == if s.asyncInitOk then Async(LockRequest) else Idle
      case LockRequest => pc == Async(Request)
      case Request => pc == Async(SignalRequest)
      case SignalRequest => pc == Async(UnlockRequest)
      case UnlockRequest => pc == Idle
  {
    hide Signal;
    match r
    case ReadAsync =>
    case LockAsync =>
    case TestAsync =>
    case SetRunning =>
    case Create =>
    case SetAsyncOk =>
    case UnlockAsync =>
    case CheckAsync =>
    case LockRequest =>
    case Request =>
    case SignalRequest => SignalGoes(s, t, Async(UnlockRequest), s');
    case UnlockRequest =>
  }

  lemma PathFrom(s: State, t: nat, r: AsyncPc, s': State)
    requires At(s, t) == Async(r)
    requires At(s', t).Idle? || (At(s', t).Async? && (At(s', t).r == SetRunning ==> r == TestAsync && !s.asyncInited))
    requires At(s', t) == Async(Create) ==> r == SetRunning
    requires At(s', t) == Async(SetAsyncOk) ==> r == Create
    requires Asked(At(s', t)) ==> Asked(Async(r)) || (r == CheckAsync && s.asyncInitOk)
    ensures Path(s, t, s')
  {
    hide At;
  }

  lemma ClearPath(s: State, t: nat, c: ClearPc, s': State)
    requires At(s, t) == Clear(c) && ClearStep(s, t, c, s')
    ensures Path(s, t, s')
  {
    hide Signal;
    match c
    case ReadAsyncOk =>
    case LockStop =>
    case Stop =>
    case SignalStop => SignalGoes(s, t, Clear(UnlockStop), s');
    case UnlockStop =>
    case Join =>
    case ClearAsyncOk =>
    case ClearAsync =>
    case ClearInitOk =>
    case ClearInited =>
    case LockTeardown =>
    case LockTeardownRefresh =>
    case Teardown =>
    case UnlockTeardown =>
  }

  lemma NextPath(s: State, t: nat, s': State)
    requires Next(s, t, s')
    ensures Path(s, t, s')
  {
    hide InitStep, AsyncStep, SyncStep, WorkerStep, ClearStep, Call, Spurious, Path, At;
    if At(s, t).Worker? {
      WorkerPath(s, t, s');
    } else if Step(s, t, s') {
      match At(s, t)
      case Init(i, a) => InitPath(s, t, i, a, s');
      case Async(r) => AsyncPath(s, t, r, s');
      case Sync(y) => SyncPath(s, t, y, s');
      case Clear(c) => ClearPath(s, t, c, s');
    } else {
      NotSpurious(s, t, s');
      CallPath(s, t, s');
    }
  }

  lemma WorkerPath(s: State, t: nat, s': State)
    requires Next(s, t, s') && At(s, t).Worker?
    ensures Path(s, t, s')
  {
    hide Next, At;
    if At(s', t) != Worker(Woken) { WorkerGoesOn(s, t, s'); }
  }

  lemma SyncPath(s: State, t: nat, y: SyncPc, s': State)
    requires At(s, t) == Sync(y) && SyncStep(s, t, y, s')
    ensures Path(s, t, s')
  {}

  lemma CallPath(s: State, t: nat, s': State)
    requires Call(s, t, s')
    ensures Path(s, t, s')
  {
    hide Call, At;
    CallEnters(s, t, s');
  }

  lemma CallEnters(s: State, t: nat, s': State)
    requires Call(s, t, s')
    ensures At(s, t) == Idle && (At(s', t) == Clear(ReadAsyncOk) || (At(s', t).Init? && At(s', t).i == ReadInited))
  {
    hide Go, At;
    if s' == Go(s, t, Clear(ReadAsyncOk)) {
      GoAt(s, t, Clear(ReadAsyncOk));
    } else {
      var a :| s' == Go(s, t, Init(ReadInited, a));
      GoAt(s, t, Init(ReadInited, a));
    }
  }

  /** A thread inside a clear is the only caller. */
  lemma ClearAlone(s: State, c: nat, u: nat)
    requires Inv(s) && At(s, c).Clear? && u != c
    ensures At(s, u).Idle? || At(s, u).Worker?
  {
    assert ThreadOk(s, c);
  }

  lemma FlagsOkKept(s: State, t: nat, s': State, u: nat)
    requires Inv(s) && Ready(s) && PoliteNext(s, t, s')
    requires Moves(s, t, s') && Flags(s, t, s') && Path(s, t, s')
    ensures FlagsOk(s', u)
  {
    hide PoliteNext, HoldsRefresh, CoreMoves, RefreshMoves, WorkerOk, ThreadOk;
    assert FlagsOk(s, t) && FlagsOk(s, u);
    if u != t {
      assert At(s', u) == At(s, u) || At(s', u).Worker?;
      if At(s, t).Clear? { ClearAlone(s, t, u); }
      if At(s, u).Clear? { ClearAlone(s, u, t); }
      if Starting(At(s, u)) || At(s, u) == Async(SetAsyncOk) {
        assert s.core == Some(u) && s.core != Some(t);
      }
    }
  }

  lemma ReadyKept(s: State, t: nat, s': State)
    requires Inv(s) && Ready(s) && PoliteNext(s, t, s')
    ensures Ready(s')
  {
    hide PoliteNext, FlagsOk, Flags, Path, Moves, At, Inv;
    assert Next(s, t, s') by { IsNext(s, t, s'); }
    NextMoves(s, t, s');
    NextFlags(s, t, s');
    NextPath(s, t, s');
    forall u: nat ensures FlagsOk(s', u) { FlagsOkKept(s, t, s', u); }
    RunningKept(s, t, s');
  }

  lemma IsNext(s: State, t: nat, s': State)
    requires PoliteNext(s, t, s')
    ensures Next(s, t, s')
  {}

  lemma RunningKept(s: State, t: nat, s': State)
    requires Inv(s) && Ready(s) && Moves(s, t, s') && Flags(s, t, s') && Path(s, t, s')
    ensures s'.asyncInitOk ==> s'.asyncInited
    ensures s'.asyncInitOk ==> s'.running || exists c: nat :: Stopped(At(s', c))
  {
    hide HoldsRefresh, HoldsCore, CoreMoves, RefreshMoves, WorkerOk;
    assert FlagsOk(s, t) && ThreadOk(s, t);
    if s'.asyncInitOk && !s'.running {
      if s.running {
        assert Stopped(At(s', t));
      } else {
        assert s.asyncInitOk;
        var c: nat :| Stopped(At(s, c));
        assert Stopped(At(s', c));
      }
    }
  }

  lemma {:induction false} RunReady(ss: seq<State>, k: nat)
    requires PoliteRun(ss) && k < |ss|
    ensures Inv(ss[k]) && Ready(ss[k])
    decreases k
  {
    hide PoliteNext, Inv, Ready, Initial;
    InvAt(ss, k);
    if k == 0 {
      ReadyInitially(ss[0]);
    } else {
      RunReady(ss, k - 1);
      assert PolitelyLeads(ss[k - 1], ss[k]);
      var t: nat :| PoliteNext(ss[k - 1], t, ss[k]);
      ReadyKept(ss[k - 1], t, ss[k]);
    }
  }

  /** When clear does not race with refresh, it leaves no flag up and no worker alive, so that the next
      refresh starts afresh. */
  lemma ClearStartsAfresh(ss: seq<State>, k: nat, c: nat)
    requires PoliteRun(ss) && k < |ss| && At(ss[k], c) == Clear(UnlockTeardown)
    ensures var s := ss[k]; !s.inited && !s.initOk && !s.asyncInited && !s.asyncInitOk
    ensures forall u: nat :: u != c ==> At(ss[k], u) == Idle || At(ss[k], u) == Worker(Dead)
  {
    hide HoldsRefresh, HoldsCore, WorkerOk;
    RunReady(ss, k);
    var s := ss[k];
    assert FlagsOk(s, c) && ThreadOk(s, c);
    forall u: nat | u != c ensures At(s, u) == Idle || At(s, u) == Worker(Dead) {
      ClearAlone(s, c, u);
      assert ThreadOk(s, u);
    }
  }

  // ---- when clear does not race and none comes: a due refresh is begun ----

  ghost predicate NoClear(s: State) {
    forall u: nat :: !At(s, u).Clear?
  }

  /** How far a worker is from the refresh that is due. */
  function Way(pc: Pc): nat {
    if !pc.Worker? then 0
    else match pc.k
      case LockBody => 1
      case UnlockTake => 2
      case Take => 3
      case WaitTest => 4
      case LockLoop => 5
      case Woken => 5
      case Sleeping => 6
      case LoopTest => 6
      case Body => 7
      case Quit => 0
      case Dead => 0
  }

  /** There is a worker, which is to run. */
  ghost predicate Working(s: State) {
    s.asyncInitOk && s.running && Live(At(s, s.worker)) && At(s, s.worker) != Worker(Quit)
  }

  lemma Works(s: State)
    requires Inv(s) && Ready(s) && NoClear(s) && s.asyncInitOk
    ensures Working(s)
  {
    hide HoldsRefresh, HoldsCore;
    assert forall c: nat :: !Stopped(At(s, c));
    assert s.core.Some? ==> FlagsOk(s, s.core.value);
    assert ThreadOk(s, s.worker);
  }

  /** The only one that can serve is the worker. */
  lemma DueMeans(s: State)
    requires Inv(s) && Due(s)
    ensures s.pending || Serving(At(s, s.worker))
  {
    if u: nat :| Serving(At(s, u)) { assert ThreadOk(s, u); }
  }

  /** A step of the worker brings it nearer to the refresh that is due, or begins it; no other step takes
      it back. */
  lemma ComesNearer(s: State, t: nat, s': State)
    requires Inv(s) && Working(s) && Due(s) && Next(s, t, s') && s'.worker == s.worker
    ensures var w := s.worker;
      if t == w then Begins(s, w, s') || 0 < Way(At(s', w)) < Way(At(s, w)) else Way(At(s', w)) <= Way(At(s, w))
  {
    hide Next, At, Inv, Due;
    var w := s.worker;
    DueMeans(s);
    if t != w {
      NextMoves(s, t, s');
    } else if At(s', w) == Worker(Woken) {
      WokenSlept(s, w, s');
    } else {
      WorkerGoesOn(s, w, s');
      NotStuck(s, w, s');
      NextNearer(s, At(s, w).k);
    }
  }

  lemma NotStuck(s: State, t: nat, s': State)
    requires Step(s, t, s') && At(s, t).Worker?
    ensures At(s, t).k != Sleeping && At(s, t).k != Dead
  {}

  lemma NextNearer(s: State, k: WorkerPc)
    requires s.running && (s.pending || k == UnlockTake || k == LockBody) && k != Sleeping && k != Dead && k != Quit
    ensures k != LockBody ==> 0 < Way(Worker(WorkerNext(s, k))) < Way(Worker(k))
    ensures k == LockBody ==> WorkerNext(s, k) == Body
  {}

  /** Who is to step: the worker, or whoever it waits for. */
  ghost function Helper(s: State): nat {
    var pc := At(s, s.worker);
    if (pc == Worker(Sleeping) || WantsCore(pc)) && s.core.Some? then s.core.value
    else if pc == Worker(LockBody) && s.refresh.Some? then s.refresh.value
    else s.worker
  }

  lemma HelperSteps(s: State)
    requires Inv(s) && NoClear(s) && Working(s) && Due(s)
    ensures Enabled(s, Helper(s))
  {
    hide Enabled, Due;
    DueMeans(s);
    if s.core.Some? { assert HoldsCore(At(s, s.core.value)) && !At(s, s.core.value).Clear?; }
    if s.refresh.Some? { assert HoldsRefresh(At(s, s.refresh.value)); }
    assert !Blocked(s, Helper(s));
    UnblockedSteps(s, Helper(s));
  }

  ghost predicate PolitelyScheduled(ss: seq<State>, ts: seq<nat>) {
    |ss| == |ts| + 1 && Initial(ss[0]) && forall i :: 0 <= i < |ts| ==> PoliteNext(ss[i], ts[i], ss[i + 1])
  }

  lemma ScheduledRun(ss: seq<State>, ts: seq<nat>)
    requires PolitelyScheduled(ss, ts)
    ensures PoliteRun(ss) && Run(ss)
  {
    hide PoliteNext, Next, Initial;
    forall i | 0 <= i < |ss| - 1 ensures PolitelyLeads(ss[i], ss[i + 1]) && Leads(ss[i], ss[i + 1]) {
      assert PoliteNext(ss[i], ts[i], ss[i + 1]);
      IsNext(ss[i], ts[i], ss[i + 1]);
    }
  }

  /** The steps of thread w from state i to state j. */
  ghost function StepsOf(ts: seq<nat>, w: nat, i: nat, j: nat): nat
    requires i <= j <= |ts|
  {
    if i == j then 0 else StepsOf(ts, w, i, j - 1) + if ts[j - 1] == w then 1 else 0
  }

  ghost predicate NoClearBetween(ss: seq<State>, i: nat, j: nat)
    requires j < |ss|
  {
    forall k :: i <= k <= j ==> NoClear(ss[k])
  }

  /** A clear that has not been called does not take the worker away. */
  lemma StillWorking(s: State, t: nat, s': State)
    requires Inv(s) && Ready(s) && NoClear(s) && s.asyncInitOk && PoliteNext(s, t, s')
    ensures s'.asyncInitOk && s'.worker == s.worker
  {
    hide PoliteNext, Inv, At;
    IsNext(s, t, s');
    NextFlags(s, t, s');
    assert FlagsOk(s, t);
  }

  /** When clear does not race and none comes: after a request, and until a refresh is begun, the worker
      takes at most six steps, no other step sets it back, and it, or the thread it waits for, can step. */
  lemma {:induction false} BegunSoon(ss: seq<State>, ts: seq<nat>, i: nat, j: nat, t: nat)
    requires PolitelyScheduled(ss, ts) && i < j < |ss| && RequestsAt(ss, i, t)
    requires NoClearBetween(ss, i + 1, j) && !BegunBetween(ss, i + 1, j)
    ensures ss[j].asyncInitOk && ss[j].worker == ss[i + 1].worker && Due(ss[j])
    ensures var w := ss[j].worker; Working(ss[j]) && 0 < Way(At(ss[j], w)) && StepsOf(ts, w, i + 1, j) + Way(At(ss[j], w)) <= 7
    ensures Enabled(ss[j], Helper(ss[j]))
    decreases j
  {
    hide PoliteNext, Inv, Ready, Enabled, Due, Initial, Begins, Way, Requests, Helper, Working, Run, PoliteRun, At;
    ScheduledRun(ss, ts);
    RunReady(ss, j);
    RequestServed(ss, i, j, t);
    if j == i + 1 {
      RequestReady(ss[i], t, ss[j]);
      Works(ss[j]);
      WayBound(ss[j]);
    } else {
      BegunSoon(ss, ts, i, j - 1, t);
      RunReady(ss, j - 1);
      OneStep(ss, ts, j - 1);
    }
    HelperSteps(ss[j]);
  }

  lemma RequestReady(s: State, t: nat, s': State)
    requires Requests(s, t, s') && Ready(s')
    ensures s'.asyncInitOk
  {
    assert FlagsOk(s', t);
  }

  lemma WayBound(s: State)
    requires Working(s)
    ensures 0 < Way(At(s, s.worker)) <= 7
  {}

  lemma OneStep(ss: seq<State>, ts: seq<nat>, k: nat)
    requires PolitelyScheduled(ss, ts) && k < |ts| && !BeginsAt(ss, k)
    requires Inv(ss[k]) && Ready(ss[k]) && NoClear(ss[k]) && Due(ss[k]) && Working(ss[k])
    requires Inv(ss[k + 1]) && Ready(ss[k + 1]) && NoClear(ss[k + 1])
    ensures var s, s' := ss[k], ss[k + 1]; var w := s.worker;
      && Working(s') && s'.asyncInitOk && s'.worker == w && 0 < Way(At(s', w))
      && Way(At(s', w)) + (if ts[k] == w then 1 else 0) <= Way(At(s, w))
  {
    hide PoliteNext, Inv, Ready, Due, Initial, Way, At, Working, Next, NoClear;
    var s, s' := ss[k], ss[k + 1];
    assert PoliteNext(s, ts[k], s');
    IsNext(s, ts[k], s');
    assert s.asyncInitOk by { WorkingOk(s); }
    StillWorking(s, ts[k], s');
    Works(s');
    WayBound(s');
    ComesNearer(s, ts[k], s');
    assert Begins(s, s.worker, s') ==> Begun(s, s');
  }

  lemma WorkingOk(s: State)
    requires Working(s)
    ensures s.asyncInitOk
  {}

  /** How many steps the owner of the core mutex is from letting it go. */
  function ToUnlock(pc: Pc): nat {
    match pc
    case Idle => 0
    case Init(i, a) => if i.TestInit? then 3 else if i.AddHandler? then 2 else if i.UnlockInit? then 1 else 0
    case Async(r) =>
      if r.TestAsync? then 5 else if r.SetRunning? then 4 else if r.Create? || r.Request? then 3
      else if r.SetAsyncOk? || r.SignalRequest? then 2 else if r.UnlockAsync? || r.UnlockRequest? then 1 else 0
    case Sync(y) => 0
    case Worker(k) => if k.WaitTest? then 3 else if k.Take? then 2 else if k.Quit? || k.UnlockTake? then 1 else 0
    case Clear(c) => 0
  }

  /** A thread other than clear holds the core mutex for at most five steps of its own, and never waits
      while it does. */
  lemma LetsGo(s: State, t: nat, s': State)
    requires Next(s, t, s') && HoldsCore(At(s, t)) && !At(s, t).Clear?
    ensures ToUnlock(At(s', t)) < ToUnlock(At(s, t)) <= 5 && (HoldsCore(At(s', t)) <==> ToUnlock(At(s', t)) > 0)
    ensures !Blocked(s, t)
  {
    hide InitStep, AsyncStep, WorkerStep, Call, Spurious;
    NotCalled(s, t, s');
    match At(s, t)
    case Init(i, a) => InitLetsGo(s, t, i, a, s');
    case Async(r) => AsyncLetsGo(s, t, r, s');
    case Worker(k) => WorkerGoes(s, t, k, s');
  }

  lemma InitLetsGo(s: State, t: nat, i: InitPc, a: bool, s': State)
    requires InitStep(s, t, i, a, s') && HoldsCore(Init(i, a))
    ensures ToUnlock(At(s', t)) < ToUnlock(Init(i, a)) && (HoldsCore(At(s', t)) <==> ToUnlock(At(s', t)) > 0)
  {}

  lemma AsyncLetsGo(s: State, t: nat, r: AsyncPc, s': State)
    requires AsyncStep(s, t, r, s') && HoldsCore(Async(r))
    ensures ToUnlock(At(s', t)) < ToUnlock(Async(r)) && (HoldsCore(At(s', t)) <==> ToUnlock(At(s', t)) > 0)
  {
    hide Signal;
    if r == SignalRequest { SignalGoes(s, t, Async(UnlockRequest), s'); }
  }

  // ---- initialisation happens once until clear, in every run ----

  /** A thread goes on to register the signal handler. */
  predicate StartsHandler(s: State, t: nat, s': State) {
    At(s, t).Init? && At(s, t).i == TestInit && At(s', t).Init? && At(s', t).i == AddHandler
  }

  /** A thread goes on to create a worker. */
  predicate StartsWorker(s: State, t: nat, s': State) {
    At(s, t) == Async(TestAsync) && At(s', t) == Async(SetRunning)
  }

  predicate Forgets(s: State, s': State, c: nat, from: ClearPc, to: ClearPc) {
    At(s, c) == Clear(from) && At(s', c) == Clear(to)
  }

  /** Between states i and j some clear has put a flag down. */
  ghost predicate ForgottenBetween(ss: seq<State>, i: nat, j: nat, from: ClearPc, to: ClearPc)
    requires j < |ss|
  {
    exists k: nat :: i <= k < j && ForgottenAt(ss, k, from, to)
  }

  ghost predicate ForgottenAt(ss: seq<State>, k: nat, from: ClearPc, to: ClearPc)
    requires k + 1 < |ss|
  {
    Forgotten(ss[k], ss[k + 1], from, to)
  }

  ghost predicate Forgotten(s: State, s': State, from: ClearPc, to: ClearPc) {
    exists c: nat :: Forgets(s, s', c, from, to)
  }

  lemma StartStep(s: State, t: nat, u: nat, s': State)
    requires Next(s, u, s') && (StartsHandler(s, t, s') || StartsWorker(s, t, s'))
    ensures StartsHandler(s, t, s') ==> !s.inited && s'.inited
    ensures StartsWorker(s, t, s') ==> !s.asyncInited && s'.asyncInited
  {
    hide InitStep, AsyncStep, Call, Spurious;
    if u != t { OnlyItself(s, u, t, s'); }
    NotCalled(s, t, s');
    match At(s, t)
    case Init(i, a) => HandlerStep(s, t, a, s');
    case Async(r) => CreationStep(s, t, s');
  }

  lemma HandlerStep(s: State, t: nat, a: bool, s': State)
    requires InitStep(s, t, TestInit, a, s') && At(s', t).Init? && At(s', t).i == AddHandler
    ensures !s.inited && s'.inited
  {}

  lemma CreationStep(s: State, t: nat, s': State)
    requires AsyncStep(s, t, TestAsync, s') && At(s', t) == Async(SetRunning)
    ensures !s.asyncInited && s'.asyncInited
  {}

  lemma FlagFalls(s: State, u: nat, s': State)
    requires Next(s, u, s')
    ensures s.inited && !s'.inited ==> Forgotten(s, s', ClearInited, LockTeardown)
    ensures s.asyncInited && !s'.asyncInited ==> Forgotten(s, s', ClearAsync, ClearInitOk)
  {
    hide ClearStep, Call, Spurious;
    NextFlags(s, u, s');
    if s.inited && !s'.inited {
      NotCalled(s, u, s');
      ForgetStep(s, u, s');
      assert Forgets(s, s', u, ClearInited, LockTeardown);
    }
    if s.asyncInited && !s'.asyncInited {
      NotCalled(s, u, s');
      ForgetStep(s, u, s');
      assert Forgets(s, s', u, ClearAsync, ClearInitOk);
    }
  }

  lemma ForgetStep(s: State, u: nat, s': State)
    requires At(s, u) == Clear(ClearInited) || At(s, u) == Clear(ClearAsync)
    requires ClearStep(s, u, At(s, u).c, s')
    ensures At(s, u) == Clear(ClearInited) ==> At(s', u) == Clear(LockTeardown)
    ensures At(s, u) == Clear(ClearAsync) ==> At(s', u) == Clear(ClearInitOk)
  {}

  lemma {:induction false} UpUntilForgotten(ss: seq<State>, i: nat, j: nat)
    requires Run(ss) && i <= j < |ss|
    ensures ss[i].inited ==> ss[j].inited || ForgottenBetween(ss, i, j, ClearInited, LockTeardown)
    ensures ss[i].asyncInited ==> ss[j].asyncInited || ForgottenBetween(ss, i, j, ClearAsync, ClearInitOk)
    decreases j
  {
    hide Next, Initial, Forgotten, ForgottenBetween;
    if i < j {
      UpUntilForgotten(ss, i, j - 1);
      assert Leads(ss[j - 1], ss[j]);
      var u: nat :| Next(ss[j - 1], u, ss[j]);
      FlagFalls(ss[j - 1], u, ss[j]);
      ForgottenMore(ss, i, j, ClearInited, LockTeardown);
      ForgottenMore(ss, i, j, ClearAsync, ClearInitOk);
    }
  }

  lemma ForgottenMore(ss: seq<State>, i: nat, j: nat, from: ClearPc, to: ClearPc)
    requires i < j < |ss|
    ensures ForgottenBetween(ss, i, j - 1, from, to) || Forgotten(ss[j - 1], ss[j], from, to) ==> ForgottenBetween(ss, i, j, from, to)
  {
    hide Forgotten;
    if Forgotten(ss[j - 1], ss[j], from, to) { assert ForgottenAt(ss, j - 1, from, to); }
    if ForgottenBetween(ss, i, j - 1, from, to) {
      var k: nat :| i <= k < j - 1 && ForgottenAt(ss, k, from, to);
      assert ForgottenAt(ss, k, from, to);
    }
  }

  /** In every run: the signal handler is registered a second time, or a second worker created, only after
      a clear has put the flag down. */
  lemma OnceUntilClear(ss: seq<State>, i: nat, j: nat, t: nat, u: nat)
    requires Run(ss) && i < j && j + 1 < |ss|
    ensures StartsHandler(ss[i], t, ss[i + 1]) && StartsHandler(ss[j], u, ss[j + 1]) ==>
      ForgottenBetween(ss, i + 1, j, ClearInited, LockTeardown)
    ensures StartsWorker(ss[i], t, ss[i + 1]) && StartsWorker(ss[j], u, ss[j + 1]) ==>
      ForgottenBetween(ss, i + 1, j, ClearAsync, ClearInitOk)
  {
    hide Next, Initial, ForgottenBetween, StartsHandler, StartsWorker;
    assert Leads(ss[i], ss[i + 1]) && Leads(ss[j], ss[j + 1]);
    var a: nat :| Next(ss[i], a, ss[i + 1]);
    var b: nat :| Next(ss[j], b, ss[j + 1]);
    UpUntilForgotten(ss, i + 1, j);
    if StartsHandler(ss[i], t, ss[i + 1]) || StartsWorker(ss[i], t, ss[i + 1]) { StartStep(ss[i], t, a, ss[i + 1]); }
    if StartsHandler(ss[j], u, ss[j + 1]) || StartsWorker(ss[j], u, ss[j + 1]) { StartStep(ss[j], u, b, ss[j + 1]); }
  }
}
