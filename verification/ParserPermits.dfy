/** What the limiters are for: limited work is done with a permit in hand, and never
    by more threads than the first limit of its name allows. */
module ParserPermits {
  import opened Ordering
  import opened ParserLocks
  import opened Wrappers

  // --------------------------------------------------- permits wanted and held

  function Copies<T>(x: T, n: nat): (r: seq<T>)
    ensures |r| == n && forall i | 0 <= i < n :: r[i] == x
  {
    seq(n, _ => x)
  }

  function PermitFor(name: string, limit: int): Option<string> { if limit > 0 then Some(name) else None }

  function Count(n: Option<nat>): nat { if n.Some? then n.value else 0 }

  /** The permits with which a request is to do its work of one kind, in order:
      conversions and renderings under their limiter if the limit is positive, the
      pdfium calls around a rendering under none. */
  function Wanted(r: Request, i: Instr): seq<Option<string>> {
    match r
    case ScannedRequest(max, n) => if i == Pdfium then Copies(PermitFor(RENDER, max), n) else []
    case PdfRequest(max, before, scanned, after, fallback) =>
      if i == Pdfium then
        Copies(None, before) + Copies(PermitFor(RENDER, max), Count(scanned)) + Copies(None, after)
        + Copies(PermitFor(RENDER, max), Count(fallback))
      else []
    case OdlRequest(odlMax, n, max, fallback) =>
      if i == Work then Copies(PermitFor(ODL, odlMax), n)
      else if i == Pdfium then Copies(PermitFor(RENDER, max), Count(fallback))
      else []
    case MarkitdownRequest(max, n) => if i == Work then Copies(PermitFor(MARKITDOWN, max), n) else []
  }

  function HoldAtEnd(h: Hold, todo: seq<Instr>): Hold
    decreases |todo|
  {
    if todo == [] then h else HoldAtEnd(HoldAfter(h, todo[0]), todo[1..])
  }

  /** The permits held at the steps of one kind, in order. */
  function PermitsAt(todo: seq<Instr>, h: Hold, i: Instr): seq<Option<string>> {
    if todo == [] then []
    else
      var rest := PermitsAt(todo[1..], HoldAfter(h, todo[0]), i);
      if todo[0] == i then [h.permit] + rest else rest
  }

  lemma {:induction false} PermitsAppend(a: seq<Instr>, b: seq<Instr>, h: Hold, i: Instr)
    ensures HoldAtEnd(h, a + b) == HoldAtEnd(HoldAtEnd(h, a), b)
    ensures PermitsAt(a + b, h, i) == PermitsAt(a, h, i) + PermitsAt(b, HoldAtEnd(h, a), i)
    decreases |a|
  {
    if a == [] {
      assert a + b == b;
    } else {
      PermitsAppend(a[1..], b, HoldAfter(h, a[0]), i);
      assert (a + b)[0] == a[0] && (a + b)[1..] == a[1..] + b;
    }
  }

  lemma {:induction false} TimesPermits(j: Instr, n: nat, h: Hold, i: Instr)
    requires HoldAfter(h, j) == h
    ensures HoldAtEnd(h, Times(j, n)) == h
    ensures PermitsAt(Times(j, n), h, i) == if i == j then Copies(h.permit, n) else []
    decreases n
  {
    if n > 0 {
      TimesPermits(j, n - 1, h, i);
      assert Times(j, n)[1..] == Times(j, n - 1);
      assert Copies(h.permit, n) == [h.permit] + Copies(h.permit, n - 1);
    }
  }

  function Entry(name: string, max: int): seq<Instr> {
    [LockTable, GetLimiter(name, max), UnlockTable, Acquire(name)]
  }

  lemma EntryPermits(name: string, max: int, pdfium: bool, i: Instr)
    requires i == Pdfium || i == Work
    ensures var h := Hold(pdfium, false, None, None);
      && HoldAtEnd(h, Entry(name, max)) == Hold(pdfium, false, Some(name), Some(name))
      && PermitsAt(Entry(name, max), h, i) == []
  {
    var e := Entry(name, max);
    assert e[1..] == [GetLimiter(name, max), UnlockTable, Acquire(name)];
    assert e[1..][1..] == [UnlockTable, Acquire(name)] && e[1..][1..][1..] == [Acquire(name)];
    assert [Acquire(name)][1..] == [];
    var h := Hold(pdfium, false, None, None);
    var h1, h2 := Hold(pdfium, true, None, None), Hold(pdfium, true, Some(name), None);
    var h3 := Hold(pdfium, false, Some(name), None);
    assert PermitsAt([Acquire(name)], h3, i) == [];
    assert PermitsAt([UnlockTable, Acquire(name)], h2, i) == [];
    assert PermitsAt(e[1..], h1, i) == [];
    assert HoldAtEnd(h3, [Acquire(name)]) == HoldAtEnd(Hold(pdfium, false, Some(name), Some(name)), []);
    assert HoldAtEnd(h2, [UnlockTable, Acquire(name)]) == HoldAtEnd(h3, [Acquire(name)]);
    assert HoldAtEnd(h1, e[1..]) == HoldAtEnd(h2, [UnlockTable, Acquire(name)]);
  }

  lemma OnePermits(j: Instr, h: Hold, i: Instr)
    requires i == Pdfium || i == Work
    requires j != i
    ensures HoldAtEnd(h, [j]) == HoldAfter(h, j) && PermitsAt([j], h, i) == []
  {
    assert [j][1..] == [];
    assert HoldAtEnd(HoldAfter(h, j), []) == HoldAfter(h, j);
  }

  /** Limited work is done with the permit of its limiter if the limit is positive,
      and without one otherwise. */
  lemma LimitedPermits(name: string, max: int, j: Instr, n: nat, pdfium: bool, i: Instr)
    requires (i == Pdfium || i == Work) && (j == Pdfium || j == Work)
    ensures var h := Hold(pdfium, false, None, None);
      var steps := Limited(name, max, Times(j, n));
      && HoldAtEnd(h, steps) == h
      && PermitsAt(steps, h, i) == if i == j then Copies(PermitFor(name, max), n) else []
  {
    var h := Hold(pdfium, false, None, None);
    if max <= 0 {
      TimesPermits(j, n, h, i);
    } else {
      var inside := Hold(pdfium, false, Some(name), Some(name));
      var work := Times(j, n);
      EntryPermits(name, max, pdfium, i);
      TimesPermits(j, n, inside, i);
      OnePermits(Release(name), inside, i);
      PermitsAppend(Entry(name, max), work, h, i);
      PermitsAppend(Entry(name, max) + work, [Release(name)], h, i);
      assert [] + PermitsAt(work, inside, i) + [] == PermitsAt(work, inside, i);
    }
  }

  lemma LockedPermits(body: seq<Instr>, i: Instr)
    requires (i == Pdfium || i == Work) && HoldAtEnd(UNDER_LOCK, body) == UNDER_LOCK
    ensures HoldAtEnd(NOTHING, [LockPdfium] + body + [UnlockPdfium]) == NOTHING
    ensures PermitsAt([LockPdfium] + body + [UnlockPdfium], NOTHING, i) == PermitsAt(body, UNDER_LOCK, i)
  {
    OnePermits(LockPdfium, NOTHING, i);
    OnePermits(UnlockPdfium, UNDER_LOCK, i);
    PermitsAppend([LockPdfium], body, NOTHING, i);
    PermitsAppend([LockPdfium] + body, [UnlockPdfium], NOTHING, i);
    assert [] + PermitsAt(body, UNDER_LOCK, i) + [] == PermitsAt(body, UNDER_LOCK, i);
  }

  lemma ScannedPermits(max: int, n: nat, i: Instr)
    requires i == Pdfium || i == Work
    ensures HoldAtEnd(NOTHING, ScannedSteps(max, n)) == NOTHING
    ensures PermitsAt(ScannedSteps(max, n), NOTHING, i) == if i == Pdfium then Copies(PermitFor(RENDER, max), n) else []
  {
    LimitedPermits(RENDER, max, Pdfium, n, true, i);
    LockedPermits(Limited(RENDER, max, Times(Pdfium, n)), i);
  }

  /** What the router does under the lock. */
  function RouteBody(max: int, before: nat, rendering: Option<nat>, after: nat): seq<Instr> {
    Times(Pdfium, before)
    + (if rendering.Some? then Limited(RENDER, max, Times(Pdfium, rendering.value)) else [])
    + Times(Pdfium, after)
  }

  function RouteWanted(max: int, before: nat, rendering: Option<nat>, after: nat): seq<Option<string>> {
    Copies(None, before) + Copies(PermitFor(RENDER, max), Count(rendering)) + Copies(None, after)
  }

  lemma RouteBodyPermits(max: int, before: nat, rendering: Option<nat>, after: nat, i: Instr)
    requires i == Pdfium || i == Work
    ensures HoldAtEnd(UNDER_LOCK, RouteBody(max, before, rendering, after)) == UNDER_LOCK
    ensures PermitsAt(RouteBody(max, before, rendering, after), UNDER_LOCK, i) ==
      if i == Pdfium then RouteWanted(max, before, rendering, after) else []
  {
    var first, last := Times(Pdfium, before), Times(Pdfium, after);
    var middle := if rendering.Some? then Limited(RENDER, max, Times(Pdfium, rendering.value)) else [];
    TimesPermits(Pdfium, before, UNDER_LOCK, i);
    TimesPermits(Pdfium, after, UNDER_LOCK, i);
    MiddlePermits(max, rendering, i);
    PermitsAppend(first, middle, UNDER_LOCK, i);
    PermitsAppend(first + middle, last, UNDER_LOCK, i);
  }

  lemma RoutePermits(max: int, before: nat, rendering: Option<nat>, after: nat, i: Instr)
    requires i == Pdfium || i == Work
    ensures HoldAtEnd(NOTHING, RouteSteps(max, before, rendering, after)) == NOTHING
    ensures PermitsAt(RouteSteps(max, before, rendering, after), NOTHING, i) ==
      if i == Pdfium then RouteWanted(max, before, rendering, after) else []
  {
    RouteBodyPermits(max, before, rendering, after, i);
    LockedPermits(RouteBody(max, before, rendering, after), i);
    RouteIsLocked(max, before, rendering, after);
  }

  lemma RouteIsLocked(max: int, before: nat, rendering: Option<nat>, after: nat)
    ensures RouteSteps(max, before, rendering, after)
      == [LockPdfium] + RouteBody(max, before, rendering, after) + [UnlockPdfium]
  {
    var first, last := Times(Pdfium, before), Times(Pdfium, after);
    var middle := if rendering.Some? then Limited(RENDER, max, Times(Pdfium, rendering.value)) else [];
    Regroup([LockPdfium], first, middle, last, [UnlockPdfium]);
  }

  lemma Regroup(a: seq<Instr>, b: seq<Instr>, c: seq<Instr>, d: seq<Instr>, e: seq<Instr>)
    ensures a + b + c + d + e == a + (b + c + d) + e
  {
  }

  lemma MiddlePermits(max: int, rendering: Option<nat>, i: Instr)
    requires i == Pdfium || i == Work
    ensures var middle := if rendering.Some? then Limited(RENDER, max, Times(Pdfium, rendering.value)) else [];
      && HoldAtEnd(UNDER_LOCK, middle) == UNDER_LOCK
      && PermitsAt(middle, UNDER_LOCK, i)
        == if i == Pdfium then Copies(PermitFor(RENDER, max), Count(rendering)) else []
  {
    if rendering.Some? {
      LimitedPermits(RENDER, max, Pdfium, rendering.value, true, i);
    }
  }

  lemma FallbackPermits(first: seq<Instr>, max: int, fallback: Option<nat>, i: Instr)
    requires (i == Pdfium || i == Work) && HoldAtEnd(NOTHING, first) == NOTHING
    ensures PermitsAt(first + (if fallback.Some? then ScannedSteps(max, fallback.value) else []), NOTHING, i) ==
      PermitsAt(first, NOTHING, i) + if i == Pdfium then Copies(PermitFor(RENDER, max), Count(fallback)) else []
  {
    if fallback.Some? {
      ScannedPermits(max, fallback.value, i);
      PermitsAppend(first, ScannedSteps(max, fallback.value), NOTHING, i);
    } else {
      assert first + [] == first;
      assert PermitsAt(first, NOTHING, i) + [] == PermitsAt(first, NOTHING, i);
    }
  }

  /** Every request does its work with just the permits wanted. */
  lemma RequestPermits(r: Request, i: Instr)
    requires i == Pdfium || i == Work
    ensures PermitsAt(Steps(r), NOTHING, i) == Wanted(r, i)
  {
    match r
    case ScannedRequest(max, n) => ScannedPermits(max, n, i);
    case PdfRequest(max, before, scanned, after, fallback) =>
      RoutePermits(max, before, scanned, after, i);
      FallbackPermits(RouteSteps(max, before, scanned, after), max, fallback, i);
    case OdlRequest(odlMax, n, max, fallback) =>
      LimitedPermits(ODL, odlMax, Work, n, false, i);
      FallbackPermits(Limited(ODL, odlMax, Times(Work, n)), max, fallback, i);
    case MarkitdownRequest(max, n) => LimitedPermits(MARKITDOWN, max, Work, n, false, i);
  }

  // ------------------------------------------------------------- in every run

  /** The permits that thread t will hold at its steps of one kind. */
  function Left(s: State, t: nat, i: Instr): seq<Option<string>>
    requires t < |s.threads|
  {
    PermitsAt(s.threads[t].todo, s.threads[t].hold, i)
  }

  ghost predicate IsEndOf(a: seq<Option<string>>, b: seq<Option<string>>) { |a| <= |b| && a == b[|b| - |a|..] }

  lemma LeftStep(s: State, u: nat, t: nat, i: Instr, wanted: seq<Option<string>>)
    requires Enabled(s, u) && t < |s.threads| && IsEndOf(Left(s, t, i), wanted)
    ensures t < |Next(s, u).threads| && IsEndOf(Left(Next(s, u), t, i), wanted)
  {
    var before, after := Left(s, t, i), Left(Next(s, u), t, i);
    if u == t && s.threads[t].todo[0] == i {
      assert before == [s.threads[t].hold.permit] + after;
      assert after == before[1..];
    } else {
      assert after == before;
    }
  }

  lemma {:induction false} RunLengths(requests: seq<Request>, states: seq<State>, k: nat)
    requires Run(requests, states) && k < |states|
    ensures |states[k].threads| == |requests|
    decreases k
  {
    if k > 0 {
      RunLengths(requests, states, k - 1);
      var u := RunStep(requests, states, k - 1);
    }
  }

  lemma {:induction false} RunPermits(requests: seq<Request>, states: seq<State>, k: nat, t: nat, i: Instr)
    requires Run(requests, states) && k < |states| && t < |requests| && (i == Pdfium || i == Work)
    requires |states[k].threads| == |requests|
    ensures IsEndOf(Left(states[k], t, i), Wanted(requests[t], i))
    decreases k
  {
    var wanted := Wanted(requests[t], i);
    if k == 0 {
      RequestPermits(requests[t], i);
      assert wanted[|wanted| - |wanted|..] == wanted;
    } else {
      RunLengths(requests, states, k - 1);
      RunPermits(requests, states, k - 1, t, i);
      var u := RunStep(requests, states, k - 1);
      LeftStep(states[k - 1], u, t, i, wanted);
    }
  }

  /** Thread t is about to do work of the given kind. */
  predicate At(s: State, t: nat, i: Instr) {
    t < |s.threads| && s.threads[t].todo != [] && s.threads[t].todo[0] == i
  }

  /** In every state of every run, a thread about to work holds the permit that its
      request wants at that point, counted from the end of its work. */
  lemma WorksWithPermit(requests: seq<Request>, states: seq<State>, k: nat, t: nat, i: Instr)
    requires Run(requests, states) && k < |states| && t < |requests| && (i == Pdfium || i == Work)
    requires At(states[k], t, i)
    ensures var left, wanted := Left(states[k], t, i), Wanted(requests[t], i);
      0 < |left| <= |wanted| && states[k].threads[t].hold.permit == wanted[|wanted| - |left|]
  {
    RunLengths(requests, states, k);
    RunPermits(requests, states, k, t, i);
    var left, wanted := Left(states[k], t, i), Wanted(requests[t], i);
    assert left[0] == states[k].threads[t].hold.permit;
    assert left[0] == wanted[|wanted| - |left|..][0];
  }

  /** A conversion runs with the permit of its own limiter if its limit is positive,
      and without a permit otherwise. */
  lemma ConversionHoldsPermit(requests: seq<Request>, states: seq<State>, k: nat, t: nat)
    requires Run(requests, states) && k < |states| && t < |requests| && At(states[k], t, Work)
    ensures var permit := states[k].threads[t].hold.permit;
      match requests[t]
      case OdlRequest(odlMax, _, _, _) => permit == if odlMax > 0 then Some(ODL) else None
      case MarkitdownRequest(max, _) => permit == if max > 0 then Some(MARKITDOWN) else None
      case _ => false
  {
    WorksWithPermit(requests, states, k, t, Work);
  }

  /** A page is rendered with a render permit if the limit is positive, and without
      a permit otherwise. Of a routed document the pdfium calls before and after the
      rendering need none: those are recognised by the number of calls left. */
  lemma RenderingHoldsPermit(requests: seq<Request>, states: seq<State>, k: nat, t: nat)
    requires Run(requests, states) && k < |states| && t < |requests| && At(states[k], t, Pdfium)
    ensures var permit, left := states[k].threads[t].hold.permit, |Left(states[k], t, Pdfium)|;
      match requests[t]
      case ScannedRequest(max, _) => permit == if max > 0 then Some(RENDER) else None
      case OdlRequest(_, _, max, _) => permit == if max > 0 then Some(RENDER) else None
      case PdfRequest(max, before, scanned, after, fallback) =>
        var f := Count(fallback);
        var rendering := left <= f || f + after < left <= f + after + Count(scanned);
        permit == if max > 0 && rendering then Some(RENDER) else None
      case MarkitdownRequest(_, _) => false
  {
    WorksWithPermit(requests, states, k, t, Pdfium);
  }

  // --------------------------------------------------------- threads at work

  /** The limit with which a request registers a limiter; zero if it does not. */
  function LimitOf(r: Request, name: string): int {
    match r
    case ScannedRequest(max, _) => if name == RENDER then max else 0
    case PdfRequest(max, _, _, _, _) => if name == RENDER then max else 0
    case OdlRequest(odlMax, _, max, _) => if name == ODL then odlMax else if name == RENDER then max else 0
    case MarkitdownRequest(max, _) => if name == MARKITDOWN then max else 0
  }

  /** The threads converting under a positive limit of the given name. */
  function Converting(requests: seq<Request>, s: State, name: string): set<nat> {
    set t: nat | t < |requests| && At(s, t, Work) && LimitOf(requests[t], name) > 0
  }

  function Holders(threads: seq<Thread>, name: string): set<nat> {
    set t: nat | t < |threads| && threads[t].hold.permit == Some(name)
  }

  lemma {:induction false} PermitsSnoc(threads: seq<Thread>, th: Thread, name: string)
    ensures Permits(threads + [th], name) == Permits(threads, name) + if th.hold.permit == Some(name) then 1 else 0
  {
    if threads == [] {
      assert [] + [th] == [th] && [th][1..] == [];
    } else {
      PermitsSnoc(threads[1..], th, name);
      assert (threads + [th])[1..] == threads[1..] + [th];
    }
  }

  lemma {:induction false} HoldersCount(threads: seq<Thread>, name: string, n: nat)
    requires n <= |threads|
    ensures |Holders(threads[..n], name)| == Permits(threads[..n], name)
  {
    if n > 0 {
      HoldersCount(threads, name, n - 1);
      assert threads[..n] == threads[..n - 1] + [threads[n - 1]];
      PermitsSnoc(threads[..n - 1], threads[n - 1], name);
      var before, after := Holders(threads[..n - 1], name), Holders(threads[..n], name);
      if threads[n - 1].hold.permit == Some(name) {
        assert after == before + {n - 1};
      } else {
        assert after == before;
      }
    }
  }

  lemma NamesDiffer()
    ensures ODL != RENDER && MARKITDOWN != RENDER && ODL != MARKITDOWN
  {
    assert ODL[0] == 'o' && RENDER[0] == 'p' && MARKITDOWN[0] == 'm';
  }

  lemma ConvertersHold(requests: seq<Request>, states: seq<State>, k: nat, name: string)
    requires Run(requests, states) && k < |states| && name != RENDER
    ensures Converting(requests, states[k], name) <= Holders(states[k].threads, name)
  {
    NamesDiffer();
    forall t | t in Converting(requests, states[k], name) ensures states[k].threads[t].hold.permit == Some(name) {
      ConversionHoldsPermit(requests, states, k, t);
    }
  }

  /** Never more threads convert under a name than its limiter has permits; before
      it is registered none does. */
  lemma ConvertingWithinCapacity(requests: seq<Request>, states: seq<State>, k: nat, name: string)
    requires Run(requests, states) && k < |states| && name != RENDER
    ensures var n := |Converting(requests, states[k], name)|;
      if name in states[k].limiters then n <= states[k].limiters[name].capacity else n == 0
  {
    var threads := states[k].threads;
    RunInv(requests, states, k);
    ConvertersHold(requests, states, k, name);
    HoldersCount(threads, name, |threads|);
    assert threads[..|threads|] == threads;
    Contained(Converting(requests, states[k], name), Holders(threads, name));
    if name in states[k].limiters {
      CapacityRespected(requests, states, k, name);
    } else {
      NobodyHolds(states[k], name);
    }
  }

  // ----------------------------------------------------------- the first limit

  lemma LimitedLooksUp(name: string, max: int, j: Instr, n: nat, i: Instr)
    requires i in Limited(name, max, Times(j, n)) && (j == Pdfium || j == Work)
    ensures i.GetLimiter? ==> i.name == name && i.max == max > 0
    ensures i.Acquire? ==> i.name == name && max > 0
  {
  }

  lemma ScannedLooksUp(max: int, n: nat, i: Instr)
    requires i in ScannedSteps(max, n)
    ensures i.GetLimiter? ==> i.name == RENDER && i.max == max > 0
    ensures i.Acquire? ==> i.name == RENDER && max > 0
  {
    if i in Limited(RENDER, max, Times(Pdfium, n)) {
      LimitedLooksUp(RENDER, max, Pdfium, n, i);
    }
  }

  lemma RouteLooksUp(max: int, before: nat, rendering: Option<nat>, after: nat, i: Instr)
    requires i in RouteSteps(max, before, rendering, after)
    ensures i.GetLimiter? ==> i.name == RENDER && i.max == max > 0
    ensures i.Acquire? ==> i.name == RENDER && max > 0
  {
    if rendering.Some? && i in Limited(RENDER, max, Times(Pdfium, rendering.value)) {
      LimitedLooksUp(RENDER, max, Pdfium, rendering.value, i);
    }
  }

  /** A request looks up and acquires only limiters for which it has a positive
      limit, and with that limit. */
  lemma RequestLooksUp(r: Request, i: Instr)
    requires i in Steps(r)
    ensures i.GetLimiter? ==> i.max == LimitOf(r, i.name) && i.max > 0
    ensures i.Acquire? ==> LimitOf(r, i.name) > 0
  {
    NamesDiffer();
    match r
    case ScannedRequest(max, n) => ScannedLooksUp(max, n, i);
    case PdfRequest(max, before, scanned, after, fallback) =>
      if i in RouteSteps(max, before, scanned, after) {
        RouteLooksUp(max, before, scanned, after, i);
      } else {
        ScannedLooksUp(max, fallback.value, i);
      }
    case OdlRequest(odlMax, n, max, fallback) =>
      if i in Limited(ODL, odlMax, Times(Work, n)) {
        LimitedLooksUp(ODL, odlMax, Work, n, i);
      } else {
        ScannedLooksUp(max, fallback.value, i);
      }
    case MarkitdownRequest(max, n) => LimitedLooksUp(MARKITDOWN, max, Work, n, i);
  }

  lemma TodoShrinks(s: State, u: nat, t: nat, i: Instr)
    requires Enabled(s, u) && t < |s.threads| && i in Next(s, u).threads[t].todo
    ensures i in s.threads[t].todo
  {
    if u == t {
      assert i in s.threads[t].todo[1..];
    }
  }

  /** What a thread has left are steps of its request. */
  lemma {:induction false} StepsLeft(requests: seq<Request>, states: seq<State>, k: nat, t: nat, i: Instr)
    requires Run(requests, states) && k < |states| && t < |requests|
    requires |states[k].threads| == |requests| && i in states[k].threads[t].todo
    ensures i in Steps(requests[t])
    decreases k
  {
    if k > 0 {
      RunLengths(requests, states, k - 1);
      var u := RunStep(requests, states, k - 1);
      TodoShrinks(states[k - 1], u, t, i);
      StepsLeft(requests, states, k - 1, t, i);
    }
  }

  /** The request whose thread registers a name gives it its capacity, its own
      positive limit. */
  lemma FirstLimit(requests: seq<Request>, states: seq<State>, j: nat, t: nat, name: string)
    requires Run(requests, states) && j + 1 < |states|
    requires Enabled(states[j], t) && states[j + 1] == Next(states[j], t)
    requires name !in states[j].limiters && name in states[j + 1].limiters
    ensures t < |requests| && LimitOf(requests[t], name) > 0
    ensures HasCapacity(states[j + 1], name, LimitOf(requests[t], name))
  {
    RunLengths(requests, states, j);
    var i := states[j].threads[t].todo[0];
    StepsLeft(requests, states, j, t, i);
    RequestLooksUp(requests[t], i);
    assert i.GetLimiter? && i.name == name;
  }

  /** In every state of every run, no more threads convert under a name than the limit
      of the request that registered the name first. */
  lemma ConvertingWithinFirstLimit(requests: seq<Request>, states: seq<State>, j: nat, t: nat, k: nat, name: string)
    requires Run(requests, states) && j < k < |states| && name != RENDER
    requires Enabled(states[j], t) && states[j + 1] == Next(states[j], t)
    requires name !in states[j].limiters && name in states[j + 1].limiters
    ensures t < |requests| && |Converting(requests, states[k], name)| <= LimitOf(requests[t], name)
  {
    FirstLimit(requests, states, j, t, name);
    CapacityStable(requests, states, j + 1, k, name, LimitOf(requests[t], name));
    ConvertingWithinCapacity(requests, states, k, name);
  }

  /** A request with a limit of zero or less never holds a permit of that limiter. */
  lemma {:induction false} NoLimitNoPermit(requests: seq<Request>, states: seq<State>, k: nat, t: nat, name: string)
    requires Run(requests, states) && k < |states| && t < |requests| && LimitOf(requests[t], name) <= 0
    ensures |states[k].threads| == |requests| && states[k].threads[t].hold.permit != Some(name)
    decreases k
  {
    if k > 0 {
      NoLimitNoPermit(requests, states, k - 1, t, name);
      var u := RunStep(requests, states, k - 1);
      if u == t {
        var i := states[k - 1].threads[t].todo[0];
        StepsLeft(requests, states, k - 1, t, i);
        RequestLooksUp(requests[t], i);
      }
    }
  }
}
