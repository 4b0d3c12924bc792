/** The locks of concurrent parse requests: the process-wide pdfium lock, the
    lock of the limiter table, and the named limiters. Every thread runs the
    lock steps of one request; any thread may take the next step. */
module ParserLocks {
  import opened Wrappers

  const RENDER := "pdf_render"
  const ODL := "opendataloader"
  const MARKITDOWN := "markitdown"

  // ---------------------------------------------------------------- requests

  /** One step of a thread, as far as locks are concerned. */
  datatype Instr =
    | LockPdfium
    | UnlockPdfium
    | LockTable
    | GetLimiter(name: string, max: int)
    | UnlockTable
    | Acquire(name: string)
    | Release(name: string)
    | Pdfium
    | Work

  function Times(i: Instr, n: nat): (r: seq<Instr>)
    ensures |r| == n
  {
    seq(n, _ => i)
  }

  /** parser_worker_limit(name, max) around a body; the permit is returned
      however the body ends. A limit of zero or less is no limit. */
  function Limited(name: string, max: int, body: seq<Instr>): seq<Instr> {
    if max <= 0 then body
    else [LockTable, GetLimiter(name, max), UnlockTable, Acquire(name)] + body + [Release(name)]
  }

  /** PDFScannedParser: the pdfium lock, then the render limiter. An exception
      only cuts the pdfium work short. */
  function ScannedSteps(max: int, rendering: nat): seq<Instr> {
    [LockPdfium] + Limited(RENDER, max, Times(Pdfium, rendering)) + [UnlockPdfium]
  }

  /** The per-page router: all under the pdfium lock, the limiter only around
      the rendering of scanned pages, if it gets that far. */
  function RouteSteps(max: int, before: nat, rendering: Option<nat>, after: nat): seq<Instr> {
    [LockPdfium] + Times(Pdfium, before)
    + (if rendering.Some? then Limited(RENDER, max, Times(Pdfium, rendering.value)) else [])
    + Times(Pdfium, after) + [UnlockPdfium]
  }

  /** A parse request with the limits in force when it runs, and the choices that
      its input makes. A fallback is present if the first attempt fails or finds
      too little text. */
  datatype Request =
    | ScannedRequest(renderMax: int, rendering: nat)
    | PdfRequest(renderMax: int, before: nat, scanned: Option<nat>, after: nat, fallback: Option<nat>)
    | OdlRequest(odlMax: int, converting: nat, renderMax: int, fallback: Option<nat>)
    | MarkitdownRequest(markitdownMax: int, converting: nat)

  function Steps(r: Request): seq<Instr> {
    match r
    case ScannedRequest(max, n) => ScannedSteps(max, n)
    case PdfRequest(max, before, scanned, after, fallback) =>
      RouteSteps(max, before, scanned, after) + (if fallback.Some? then ScannedSteps(max, fallback.value) else [])
    case OdlRequest(odlMax, n, max, fallback) =>
      Limited(ODL, odlMax, Times(Work, n)) + (if fallback.Some? then ScannedSteps(max, fallback.value) else [])
    case MarkitdownRequest(max, n) => Limited(MARKITDOWN, max, Times(Work, n))
  }

  // ------------------------------------------------------------------ the state

  /** What a thread holds: the locks, the limiter it looked up, and its permit. */
  datatype Hold = Hold(pdfium: bool, table: bool, limiter: Option<string>, permit: Option<string>)

  const NOTHING := Hold(false, false, None, None)

  datatype Thread = Thread(todo: seq<Instr>, hold: Hold)

  datatype Limiter = Limiter(capacity: int, available: int)

  datatype State = State(threads: seq<Thread>, pdfium: bool, table: bool, limiters: map<string, Limiter>)

  /** A lock or permit must be free; every other step can always be taken. */
  predicate CanDo(s: State, i: Instr) {
    match i
    case LockPdfium => !s.pdfium
    case LockTable => !s.table
    case Acquire(name) => name in s.limiters && s.limiters[name].available > 0
    case _ => true
  }

  predicate Enabled(s: State, t: nat) {
    t < |s.threads| && s.threads[t].todo != [] && CanDo(s, s.threads[t].todo[0])
  }

  function HoldAfter(h: Hold, i: Instr): Hold {
    match i
    case LockPdfium => h.(pdfium := true)
    case UnlockPdfium => h.(pdfium := false)
    case LockTable => h.(table := true)
    case GetLimiter(name, _) => h.(limiter := Some(name))
    case UnlockTable => h.(table := false)
    case Acquire(name) => h.(permit := Some(name))
    case Release(_) => h.(permit := None, limiter := None)
    case _ => h
  }

  /** The limiter table after a lookup: an entry is created once, with the first
      caller's limit. */
  function Registered(limiters: map<string, Limiter>, name: string, max: int): map<string, Limiter> {
    if name in limiters then limiters else limiters[name := Limiter(max, max)]
  }

  function Change(limiters: map<string, Limiter>, name: string, permits: int): map<string, Limiter> {
    if name in limiters then
      limiters[name := Limiter(limiters[name].capacity, limiters[name].available + permits)]
    else limiters
  }

  /** The state after thread t takes its next step. */
  function Next(s: State, t: nat): State
    requires Enabled(s, t)
  {
    var th := s.threads[t];
    var i := th.todo[0];
    var threads := s.threads[t := Thread(th.todo[1..], HoldAfter(th.hold, i))];
    match i
    case LockPdfium => State(threads, true, s.table, s.limiters)
    case UnlockPdfium => State(threads, false, s.table, s.limiters)
    case LockTable => State(threads, s.pdfium, true, s.limiters)
    case UnlockTable => State(threads, s.pdfium, false, s.limiters)
    case GetLimiter(name, max) => State(threads, s.pdfium, s.table, Registered(s.limiters, name, max))
    case Acquire(name) => State(threads, s.pdfium, s.table, Change(s.limiters, name, -1))
    case Release(name) => State(threads, s.pdfium, s.table, Change(s.limiters, name, 1))
    case _ => State(threads, s.pdfium, s.table, s.limiters)
  }

  function Start(requests: seq<Request>): State {
    State(seq(|requests|, i requires 0 <= i < |requests| => Thread(Steps(requests[i]), NOTHING)), false, false, map[])
  }

  /** A run: any requests, any interleaving of their steps. */
  ghost predicate Run(requests: seq<Request>, states: seq<State>) {
    && states != [] && states[0] == Start(requests)
    && forall k | 0 <= k < |states| - 1 :: IsStep(states, k)
  }

  /** Some thread leads from state k to the next one. */
  ghost predicate IsStep(states: seq<State>, k: nat)
    requires k + 1 < |states|
  {
    exists t: nat :: Enabled(states[k], t) && states[k + 1] == Next(states[k], t)
  }

  // ------------------------------------------------------------ lock discipline

  /** Which steps a thread may come to with what it holds: the pdfium lock is not
      taken twice or with a permit in hand, the table lock is taken last, and the
      render limiter is used under the pdfium lock, the others without it. */
  predicate Allowed(h: Hold, i: Instr) {
    match i
    case LockPdfium => !h.pdfium && !h.table && h.permit.None?
    case UnlockPdfium => h.pdfium && !h.table && h.permit.None?
    case LockTable => !h.table && h.permit.None?
    case GetLimiter(name, max) => h.table && h.permit.None? && max > 0
    case UnlockTable => h.table && h.permit.None?
    case Acquire(name) => !h.table && h.permit.None? && h.limiter == Some(name) && (name == RENDER <==> h.pdfium)
    case Release(name) => !h.table && h.permit == Some(name)
    case Pdfium => !h.table && h.pdfium
    case Work => !h.table
  }

  /** The steps are all allowed and lead from one hold to the other. */
  predicate Disciplined(todo: seq<Instr>, h: Hold, end: Hold) {
    if todo == [] then h == end
    else Allowed(h, todo[0]) && Disciplined(todo[1..], HoldAfter(h, todo[0]), end)
  }

  lemma {:induction false} DisciplinedAppend(a: seq<Instr>, b: seq<Instr>, h0: Hold, h1: Hold, h2: Hold)
    requires Disciplined(a, h0, h1) && Disciplined(b, h1, h2)
    ensures Disciplined(a + b, h0, h2)
  {
    if a == [] {
      assert a + b == b;
    } else {
      DisciplinedAppend(a[1..], b, HoldAfter(h0, a[0]), h1, h2);
      assert (a + b)[1..] == a[1..] + b;
    }
  }

  lemma {:induction false} DisciplinedTimes(i: Instr, n: nat, h: Hold)
    requires Allowed(h, i) && HoldAfter(h, i) == h
    ensures Disciplined(Times(i, n), h, h)
    decreases n
  {
    if n > 0 {
      DisciplinedTimes(i, n - 1, h);
      assert Times(i, n)[1..] == Times(i, n - 1);
    }
  }

  lemma DisciplinedOne(i: Instr, h: Hold)
    requires Allowed(h, i)
    ensures Disciplined([i], h, HoldAfter(h, i))
  {
    assert [i][1..] == [];
  }

  lemma LimitedDisciplined(name: string, max: int, i: Instr, n: nat, pdfium: bool)
    requires (name == RENDER <==> pdfium) && (i == Work || (i == Pdfium && pdfium))
    ensures Disciplined(Limited(name, max, Times(i, n)),
                        Hold(pdfium, false, None, None), Hold(pdfium, false, None, None))
  {
    var h := Hold(pdfium, false, None, None);
    if max <= 0 {
      DisciplinedTimes(i, n, h);
    } else {
      var entry := [LockTable, GetLimiter(name, max), UnlockTable, Acquire(name)];
      var inside := Hold(pdfium, false, Some(name), Some(name));
      EntryDisciplined(name, max, pdfium);
      DisciplinedTimes(i, n, inside);
      DisciplinedAppend(entry, Times(i, n), h, inside, inside);
      DisciplinedOne(Release(name), inside);
      DisciplinedAppend(entry + Times(i, n), [Release(name)], h, inside, h);
    }
  }

  lemma EntryDisciplined(name: string, max: int, pdfium: bool)
    requires (name == RENDER <==> pdfium) && max > 0
    ensures Disciplined([LockTable, GetLimiter(name, max), UnlockTable, Acquire(name)],
                        Hold(pdfium, false, None, None), Hold(pdfium, false, Some(name), Some(name)))
  {
    DisciplinedOne(LockTable, Hold(pdfium, false, None, None));
    DisciplinedOne(GetLimiter(name, max), Hold(pdfium, true, None, None));
    DisciplinedOne(UnlockTable, Hold(pdfium, true, Some(name), None));
    DisciplinedOne(Acquire(name), Hold(pdfium, false, Some(name), None));
    DisciplinedAppend([UnlockTable], [Acquire(name)], Hold(pdfium, true, Some(name), None),
      Hold(pdfium, false, Some(name), None), Hold(pdfium, false, Some(name), Some(name)));
    DisciplinedAppend([GetLimiter(name, max)], [UnlockTable, Acquire(name)], Hold(pdfium, true, None, None),
      Hold(pdfium, true, Some(name), None), Hold(pdfium, false, Some(name), Some(name)));
    DisciplinedAppend([LockTable], [GetLimiter(name, max), UnlockTable, Acquire(name)], Hold(pdfium, false, None, None),
      Hold(pdfium, true, None, None), Hold(pdfium, false, Some(name), Some(name)));
    assert [UnlockTable] + [Acquire(name)] == [UnlockTable, Acquire(name)];
    assert [GetLimiter(name, max)] + [UnlockTable, Acquire(name)]
        == [GetLimiter(name, max), UnlockTable, Acquire(name)];
    assert [LockTable] + [GetLimiter(name, max), UnlockTable, Acquire(name)]
        == [LockTable, GetLimiter(name, max), UnlockTable, Acquire(name)];
  }

  const UNDER_LOCK := Hold(true, false, None, None)

  /** Work done under the pdfium lock, with the lock around it. */
  lemma LockedDisciplined(body: seq<Instr>)
    requires Disciplined(body, UNDER_LOCK, UNDER_LOCK)
    ensures Disciplined([LockPdfium] + body + [UnlockPdfium], NOTHING, NOTHING)
  {
    DisciplinedOne(LockPdfium, NOTHING);
    DisciplinedOne(UnlockPdfium, UNDER_LOCK);
    DisciplinedAppend([LockPdfium], body, NOTHING, UNDER_LOCK, UNDER_LOCK);
    DisciplinedAppend([LockPdfium] + body, [UnlockPdfium], NOTHING, UNDER_LOCK, NOTHING);
  }

  lemma ScannedDisciplined(max: int, n: nat)
    ensures Disciplined(ScannedSteps(max, n), NOTHING, NOTHING)
  {
    LimitedDisciplined(RENDER, max, Pdfium, n, true);
    LockedDisciplined(Limited(RENDER, max, Times(Pdfium, n)));
  }

  lemma RouteDisciplined(max: int, before: nat, rendering: Option<nat>, after: nat)
    ensures Disciplined(RouteSteps(max, before, rendering, after), NOTHING, NOTHING)
  {
    var middle := if rendering.Some? then Limited(RENDER, max, Times(Pdfium, rendering.value)) else [];
    DisciplinedTimes(Pdfium, before, UNDER_LOCK);
    DisciplinedTimes(Pdfium, after, UNDER_LOCK);
    if rendering.Some? {
      LimitedDisciplined(RENDER, max, Pdfium, rendering.value, true);
    }
    DisciplinedAppend(Times(Pdfium, before), middle, UNDER_LOCK, UNDER_LOCK, UNDER_LOCK);
    DisciplinedAppend(Times(Pdfium, before) + middle, Times(Pdfium, after), UNDER_LOCK, UNDER_LOCK, UNDER_LOCK);
    LockedDisciplined(Times(Pdfium, before) + middle + Times(Pdfium, after));
    assert RouteSteps(max, before, rendering, after)
        == [LockPdfium] + (Times(Pdfium, before) + middle + Times(Pdfium, after)) + [UnlockPdfium];
  }

  /** Every request keeps the discipline; a fallback starts with nothing held. */
  lemma RequestDisciplined(r: Request)
    ensures Disciplined(Steps(r), NOTHING, NOTHING)
  {
    match r
    case ScannedRequest(max, n) => ScannedDisciplined(max, n);
    case PdfRequest(max, before, scanned, after, fallback) =>
      RouteDisciplined(max, before, scanned, after);
      WithFallback(RouteSteps(max, before, scanned, after), max, fallback);
    case OdlRequest(odlMax, n, max, fallback) =>
      LimitedDisciplined(ODL, odlMax, Work, n, false);
      WithFallback(Limited(ODL, odlMax, Times(Work, n)), max, fallback);
    case MarkitdownRequest(max, n) => LimitedDisciplined(MARKITDOWN, max, Work, n, false);
  }

  lemma WithFallback(first: seq<Instr>, max: int, fallback: Option<nat>)
    requires Disciplined(first, NOTHING, NOTHING)
    ensures Disciplined(first + (if fallback.Some? then ScannedSteps(max, fallback.value) else []), NOTHING, NOTHING)
  {
    if fallback.Some? {
      ScannedDisciplined(max, fallback.value);
      DisciplinedAppend(first, ScannedSteps(max, fallback.value), NOTHING, NOTHING, NOTHING);
    } else {
      assert first + [] == first;
    }
  }

  // ------------------------------------------------------------ the invariant

  function Permits(threads: seq<Thread>, name: string): nat {
    if threads == [] then 0
    else (if threads[0].hold.permit == Some(name) then 1 else 0) + Permits(threads[1..], name)
  }

  lemma {:induction false} PermitsUpdate(threads: seq<Thread>, t: nat, th: Thread, name: string)
    requires t < |threads|
    ensures Permits(threads[t := th], name) + (if threads[t].hold.permit == Some(name) then 1 else 0)
      == Permits(threads, name) + (if th.hold.permit == Some(name) then 1 else 0)
  {
    if t > 0 {
      PermitsUpdate(threads[1..], t - 1, th, name);
      assert threads[t := th][1..] == threads[1..][t - 1 := th];
    } else {
      assert threads[0 := th][1..] == threads[1..];
    }
  }

  lemma {:induction false} HolderExists(threads: seq<Thread>, name: string)
    ensures Permits(threads, name) > 0 <==> exists t :: 0 <= t < |threads| && threads[t].hold.permit == Some(name)
  {
    if threads != [] {
      HolderExists(threads[1..], name);
      if t :| 0 <= t < |threads| && threads[t].hold.permit == Some(name) {
        assert t > 0 ==> threads[1..][t - 1].hold.permit == Some(name);
      }
      if t :| 0 <= t < |threads[1..]| && threads[1..][t].hold.permit == Some(name) {
        assert threads[t + 1].hold.permit == Some(name);
      }
    }
  }

  /** Every thread is disciplined, and knows only limiters that exist. */
  ghost predicate ThreadOk(th: Thread, limiters: map<string, Limiter>) {
    && Disciplined(th.todo, th.hold, NOTHING)
    && (th.hold.limiter.Some? ==> th.hold.limiter.value in limiters)
    && (th.hold.permit.Some? ==> th.hold.permit == th.hold.limiter && !th.hold.table)
    && (th.hold.permit.Some? ==> (th.hold.permit.value == RENDER <==> th.hold.pdfium))
  }

  /** The pdfium lock is taken exactly when one thread holds it. */
  ghost predicate PdfiumOk(s: State) {
    && (forall t, u | 0 <= t < |s.threads| && 0 <= u < |s.threads|
          && s.threads[t].hold.pdfium && s.threads[u].hold.pdfium ::
          t == u)
    && (s.pdfium <==> exists t :: 0 <= t < |s.threads| && s.threads[t].hold.pdfium)
  }

  ghost predicate TableOk(s: State) {
    && (forall t, u | 0 <= t < |s.threads| && 0 <= u < |s.threads|
          && s.threads[t].hold.table && s.threads[u].hold.table ::
          t == u)
    && (s.table <==> exists t :: 0 <= t < |s.threads| && s.threads[t].hold.table)
  }

  /** Permits are conserved: those free and those held make up the capacity. */
  ghost predicate LimitersOk(s: State) {
    forall name | name in s.limiters ::
      && s.limiters[name].capacity > 0
      && s.limiters[name].available >= 0
      && s.limiters[name].available + Permits(s.threads, name) == s.limiters[name].capacity
  }

  ghost predicate Inv(s: State) {
    && (forall t | 0 <= t < |s.threads| :: ThreadOk(s.threads[t], s.limiters))
    && PdfiumOk(s) && TableOk(s) && LimitersOk(s)
  }

  lemma {:induction false} NoPermits(threads: seq<Thread>, name: string)
    requires forall t | 0 <= t < |threads| :: threads[t].hold == NOTHING
    ensures Permits(threads, name) == 0
  {
    if threads != [] {
      NoPermits(threads[1..], name);
    }
  }

  lemma StartInv(requests: seq<Request>)
    ensures Inv(Start(requests))
  {
    forall i | 0 <= i < |requests| ensures ThreadOk(Start(requests).threads[i], map[]) {
      RequestDisciplined(requests[i]);
    }
  }

  lemma StepThreads(s: State, t: nat)
    requires Inv(s) && Enabled(s, t)
    ensures forall u | 0 <= u < |s.threads| :: ThreadOk(Next(s, t).threads[u], Next(s, t).limiters)
  {
    var th := s.threads[t];
    assert ThreadOk(th, s.limiters);
    assert Allowed(th.hold, th.todo[0]) && Disciplined(th.todo[1..], HoldAfter(th.hold, th.todo[0]), NOTHING);
    forall u | 0 <= u < |s.threads| ensures ThreadOk(Next(s, t).threads[u], Next(s, t).limiters) {
      assert ThreadOk(s.threads[u], s.limiters);
    }
  }

  lemma StepPdfium(s: State, t: nat)
    requires Inv(s) && Enabled(s, t)
    ensures PdfiumOk(Next(s, t))
  {
    var th, s' := s.threads[t], Next(s, t);
    assert ThreadOk(th, s.limiters) && Allowed(th.hold, th.todo[0]);
    assert forall u | 0 <= u < |s.threads| && u != t :: s'.threads[u] == s.threads[u];
    if s'.pdfium {
      var w: nat := if th.todo[0] == LockPdfium then t else PdfiumOwner(s);
      assert s'.threads[w].hold.pdfium;
    }
  }

  ghost function PdfiumOwner(s: State): (t: nat)
    requires exists t: nat :: t < |s.threads| && s.threads[t].hold.pdfium
    ensures t < |s.threads| && s.threads[t].hold.pdfium
  {
    var t: nat :| t < |s.threads| && s.threads[t].hold.pdfium;
    t
  }

  lemma StepTable(s: State, t: nat)
    requires Inv(s) && Enabled(s, t)
    ensures TableOk(Next(s, t))
  {
    var th, s' := s.threads[t], Next(s, t);
    assert ThreadOk(th, s.limiters) && Allowed(th.hold, th.todo[0]);
    assert forall u | 0 <= u < |s.threads| && u != t :: s'.threads[u] == s.threads[u];
    if s'.table {
      if th.todo[0] == LockTable {
        assert s'.threads[t].hold.table;
      } else {
        var w :| 0 <= w < |s.threads| && s.threads[w].hold.table;
        assert s'.threads[w].hold.table;
      }
    }
  }

  lemma StepLimiters(s: State, t: nat)
    requires Inv(s) && Enabled(s, t)
    ensures LimitersOk(Next(s, t))
  {
    var th, s' := s.threads[t], Next(s, t);
    var i := th.todo[0];
    assert ThreadOk(th, s.limiters) && Allowed(th.hold, i);
    forall name | name in s'.limiters
      ensures s'.limiters[name].capacity > 0 && s'.limiters[name].available >= 0
      ensures s'.limiters[name].available + Permits(s'.threads, name) == s'.limiters[name].capacity
    {
      PermitsUpdate(s.threads, t, s'.threads[t], name);
      if name !in s.limiters {
        NobodyHolds(s, name);
      }
    }
  }

  /** Nobody has a permit of a limiter that does not exist. */
  lemma NobodyHolds(s: State, name: string)
    requires Inv(s) && name !in s.limiters
    ensures Permits(s.threads, name) == 0
  {
    HolderExists(s.threads, name);
    assert forall t | 0 <= t < |s.threads| :: ThreadOk(s.threads[t], s.limiters);
  }

  /** Every step of every thread keeps the invariant. */
  lemma StepInv(s: State, t: nat)
    requires Inv(s) && Enabled(s, t)
    ensures Inv(Next(s, t))
  {
    StepThreads(s, t);
    StepPdfium(s, t);
    StepTable(s, t);
    StepLimiters(s, t);
  }

  /** The invariant holds throughout every run. */
  lemma {:induction false} RunInv(requests: seq<Request>, states: seq<State>, k: nat)
    requires Run(requests, states) && k < |states|
    ensures Inv(states[k])
    decreases k
  {
    if k == 0 {
      StartInv(requests);
    } else {
      RunInv(requests, states, k - 1);
      var t := RunStep(requests, states, k - 1);
      StepInv(states[k - 1], t);
    }
  }

  // ------------------------------------------------------------------- theorems

  /** The thread works inside pdfium. */
  predicate InPdfium(s: State, t: nat) {
    t < |s.threads| && s.threads[t].todo != [] && s.threads[t].todo[0] == Pdfium
  }

  /** In every run at most one thread at a time is inside pdfium, and it owns the
      pdfium lock. */
  lemma MutualExclusion(requests: seq<Request>, states: seq<State>, k: nat, t: nat, u: nat)
    requires Run(requests, states) && k < |states|
    requires InPdfium(states[k], t) && InPdfium(states[k], u)
    ensures t == u && states[k].pdfium && states[k].threads[t].hold.pdfium
  {
    RunInv(requests, states, k);
    assert ThreadOk(states[k].threads[t], states[k].limiters) && ThreadOk(states[k].threads[u], states[k].limiters);
  }

  /** No limiter has more permits out than its capacity. */
  lemma CapacityRespected(requests: seq<Request>, states: seq<State>, k: nat, name: string)
    requires Run(requests, states) && k < |states| && name in states[k].limiters
    ensures Permits(states[k].threads, name) <= states[k].limiters[name].capacity
  {
    RunInv(requests, states, k);
  }

  /** The thread that takes step k of a run. */
  lemma RunStep(requests: seq<Request>, states: seq<State>, k: nat) returns (t: nat)
    requires Run(requests, states) && k + 1 < |states|
    ensures Enabled(states[k], t) && states[k + 1] == Next(states[k], t)
  {
    assert IsStep(states, k);
    t :| Enabled(states[k], t) && states[k + 1] == Next(states[k], t);
  }

  ghost predicate HasCapacity(s: State, name: string, capacity: int) {
    name in s.limiters && s.limiters[name].capacity == capacity
  }

  lemma CapacityStep(s: State, t: nat, name: string, capacity: int)
    requires Enabled(s, t) && HasCapacity(s, name, capacity)
    ensures HasCapacity(Next(s, t), name, capacity)
  {
  }

  /** The capacity of a limiter is that of its first registration for good. */
  lemma {:induction false} CapacityStable(
    requests: seq<Request>, states: seq<State>, j: nat, k: nat, name: string, capacity: int)
    requires Run(requests, states) && j <= k < |states| && HasCapacity(states[j], name, capacity)
    ensures HasCapacity(states[k], name, capacity)
    decreases k
  {
    if j < k {
      CapacityStable(requests, states, j, k - 1, name, capacity);
      CapacityAcross(requests, states, k - 1, name, capacity);
    }
  }

  lemma CapacityAcross(requests: seq<Request>, states: seq<State>, k: nat, name: string, capacity: int)
    requires Run(requests, states) && k + 1 < |states| && HasCapacity(states[k], name, capacity)
    ensures HasCapacity(states[k + 1], name, capacity)
  {
    var s, s' := states[k], states[k + 1];
    var t := RunStep(requests, states, k);
    CapacityStep(s, t, name, capacity);
  }

  /** A thread about to take a render permit never waits: only the owner of the
      pdfium lock ever holds one. */
  lemma RenderNeverBlocks(s: State, t: nat)
    requires Inv(s) && t < |s.threads| && s.threads[t].todo != [] && s.threads[t].todo[0] == Acquire(RENDER)
    ensures Enabled(s, t)
  {
    var th := s.threads[t];
    assert ThreadOk(th, s.limiters) && Allowed(th.hold, th.todo[0]);
    HolderExists(s.threads, RENDER);
    assert forall u | 0 <= u < |s.threads| :: ThreadOk(s.threads[u], s.limiters);
  }

  predicate Done(s: State) {
    forall t | 0 <= t < |s.threads| :: s.threads[t].todo == []
  }

  /** A thread that holds anything has steps left. */
  lemma HolderHasSteps(s: State, t: nat)
    requires Inv(s) && t < |s.threads| && s.threads[t].hold != NOTHING
    ensures s.threads[t].todo != [] && Allowed(s.threads[t].hold, s.threads[t].todo[0])
  {
    assert ThreadOk(s.threads[t], s.limiters);
  }

  /** No reachable state is deadlocked: unless all threads are done, one of them
      can take a step. */
  lemma NoDeadlock(s: State)
    requires Inv(s) && !Done(s)
    ensures exists t: nat :: Enabled(s, t)
  {
    if s.table {
      var t: nat :| t < |s.threads| && s.threads[t].hold.table;
      HolderHasSteps(s, t);
      assert Enabled(s, t);
    } else if s.pdfium {
      var t: nat :| t < |s.threads| && s.threads[t].hold.pdfium;
      HolderHasSteps(s, t);
      if s.threads[t].todo[0].Acquire? {
        RenderNeverBlocks(s, t);
      }
      assert Enabled(s, t);
    } else {
      var t: nat :| t < |s.threads| && s.threads[t].todo != [];
      assert ThreadOk(s.threads[t], s.limiters);
      var i := s.threads[t].todo[0];
      if i.Acquire? && !CanDo(s, i) {
        HolderExists(s.threads, i.name);
        assert Permits(s.threads, i.name) > 0;
        var u: nat :| u < |s.threads| && s.threads[u].hold.permit == Some(i.name);
        HolderHasSteps(s, u);
        assert Enabled(s, u);
      } else {
        assert Enabled(s, t);
      }
    }
  }

  /** When all threads are done, the locks are free and all permits are back. */
  lemma AllReturned(s: State)
    requires Inv(s) && Done(s)
    ensures !s.pdfium && !s.table
    ensures forall name | name in s.limiters :: s.limiters[name].available == s.limiters[name].capacity
  {
    forall t | 0 <= t < |s.threads| ensures s.threads[t].hold == NOTHING {
      assert ThreadOk(s.threads[t], s.limiters);
    }
    forall name | name in s.limiters ensures s.limiters[name].available == s.limiters[name].capacity {
      NoPermits(s.threads, name);
    }
  }

  /** The number of steps left. */
  function Remaining(threads: seq<Thread>): nat {
    if threads == [] then 0 else |threads[0].todo| + Remaining(threads[1..])
  }

  lemma {:induction false} RemainingUpdate(threads: seq<Thread>, t: nat, th: Thread)
    requires t < |threads|
    ensures Remaining(threads[t := th]) + |threads[t].todo| == Remaining(threads) + |th.todo|
  {
    if t > 0 {
      RemainingUpdate(threads[1..], t - 1, th);
      assert threads[t := th][1..] == threads[1..][t - 1 := th];
    } else {
      assert threads[0 := th][1..] == threads[1..];
    }
  }

  lemma {:induction false} RunLength(requests: seq<Request>, states: seq<State>, k: nat)
    requires Run(requests, states) && k < |states|
    ensures Remaining(states[k].threads) + k == Remaining(Start(requests).threads)
    decreases k
  {
    if k > 0 {
      RunLength(requests, states, k - 1);
      var s := states[k - 1];
      var t := RunStep(requests, states, k - 1);
      RemainingUpdate(s.threads, t, Next(s, t).threads[t]);
    }
  }

  lemma {:induction false} NoneRemaining(threads: seq<Thread>)
    requires forall t | 0 <= t < |threads| :: threads[t].todo == []
    ensures Remaining(threads) == 0
  {
    if threads != [] {
      NoneRemaining(threads[1..]);
    }
  }

  /** Every run ends: no run is longer than the steps of its requests, and a run
      that cannot go on has finished every request and returned every lock and
      permit. */
  lemma EveryRunCompletes(requests: seq<Request>, states: seq<State>)
    requires Run(requests, states)
    ensures |states| <= Remaining(Start(requests).threads) + 1
    ensures var last := states[|states| - 1];
      (forall t: nat :: !Enabled(last, t)) ==>
        && Done(last) && |states| == Remaining(Start(requests).threads) + 1
        && !last.pdfium && !last.table
        && forall name | name in last.limiters :: last.limiters[name].available == last.limiters[name].capacity
  {
    var last := states[|states| - 1];
    RunLength(requests, states, |states| - 1);
    RunInv(requests, states, |states| - 1);
    if forall t: nat :: !Enabled(last, t) {
      if !Done(last) {
        NoDeadlock(last);
      }
      NoneRemaining(last.threads);
      AllReturned(last);
    }
  }

  // -------------------------------------------------------------- the limiter table

  /** threading.BoundedSemaphore: value counts the free permits. */
  class BoundedSemaphore {
    const bound: int
    var value: int

    ghost predicate Valid()
      reads this
    {
      0 <= value <= bound
    }

    constructor (bound: int)
      requires bound >= 0
      ensures Valid() && this.bound == bound && value == bound
    {
      this.bound, value := bound, bound;
    }

    /** Takes a permit; a caller waits until there is one. */
    method Acquire()
      requires Valid() && value > 0
      modifies this
      ensures Valid() && value == old(value) - 1
    {
      value := value - 1;
    }

    /** Returns a permit; false (ValueError) if none is out. */
    method Release() returns (ok: bool)
      requires Valid()
      modifies this
      ensures Valid() && ok == (old(value) < bound)
      ensures value == if ok then old(value) + 1 else old(value)
    {
      ok := value < bound;
      if ok {
        value := value + 1;
      }
    }
  }

  /** The process-wide table of limiters. */
  class LimiterTable {
    var table: map<string, BoundedSemaphore>

    constructor ()
      ensures table == map[]
    {
      table := map[];
    }

    /** The table as the protocol sees it. */
    ghost function View(): (m: map<string, Limiter>)
      reads this, table.Values
      ensures m.Keys == table.Keys
    {
      map name | name in table :: Limiter(table[name].bound, table[name].value)
    }

    /** Looks a limiter up and creates it on first use; later limits are ignored. */
    method Lookup(name: string, max: int) returns (limiter: BoundedSemaphore)
      requires max > 0
      modifies this
      ensures name in table && table[name] == limiter
      ensures name in old(table) ==> table == old(table)
      ensures name !in old(table) ==> fresh(limiter) && table == old(table)[name := limiter]
      ensures View() == Registered(old(View()), name, max)
    {
      if name in table {
        limiter := table[name];
      } else {
        limiter := new BoundedSemaphore(max);
        table := table[name := limiter];
      }
    }
  }
}
