/** Concurrent API calls that retry while the server warms up, and the banner they share. */
module WarmupBanner {
  import opened Common

  const MAX_ATTEMPTS := 6
  const CEILING := 30000

  /** What comes back from a fetch: a status with a parsed Retry-After, or a network failure. */
  datatype Response = Reply(status: int, retryAfter: Option<int>) | Failed

  predicate Unavailable(r: Response) { r.Reply? && r.status == 503 }

  predicate IsOk(r: Response) { r.Reply? && 200 <= r.status <= 299 }

  /** Where a call waits: for a response, for its timer, for the body, or for nothing any more. */
  datatype Phase = Fetching | Sleeping | Reading | Done(success: bool)

  /** A call with its loop variables, the responses it has had and the waits it has made. */
  datatype Call = Call(
    path: string, attempt: nat, delay: nat, notified: bool, phase: Phase, released: bool,
    log: seq<Response>, waits: seq<nat>)

  /** All calls ever started, the paths in flight, the shared counter, and the banner with its history. */
  datatype State = State(calls: seq<Call>, open: map<string, nat>, inflight: int, visible: bool, events: seq<bool>)

  const START := State([], map[], 0, false, [])

  /** Everything that can happen between two pauses of the program. */
  datatype Step =
    | Begin(path: string) | Respond(i: nat, r: Response) | Wake(i: nat) | Body(i: nat, parsed: bool) | Release(i: nat)

  // ---- one call ----

  function NewCall(path: string): (c: Call) { Call(path, 0, 1000, false, Fetching, false, [], []) }

  predicate Retries(c: Call, r: Response) { Unavailable(r) && c.attempt < MAX_ATTEMPTS }

  function WaitAfter(delay: nat, r: Response): (w: nat) {
    Min(if r.Reply? && r.retryAfter.Some? && r.retryAfter.value > 0 then r.retryAfter.value * 1000 else delay, CEILING)
  }

  function Responded(c: Call, r: Response): (c': Call) {
    var c := c.(log := c.log + [r]);
    if Retries(c, r) then c.(notified := true, phase := Sleeping, waits := c.waits + [WaitAfter(c.delay, r)])
    else if IsOk(r) then c.(phase := Reading)
    else c.(phase := Done(false))
  }

  function Woken(c: Call): (c': Call) {
    c.(phase := Fetching, delay := Min(c.delay * 2, CEILING), attempt := c.attempt + 1)
  }

  // ---- the page ----

  function Notify(st: State, active: bool): (st': State) {
    var n := if active then st.inflight + 1 else if st.inflight - 1 < 0 then 0 else st.inflight - 1;
    st.(inflight := n, visible := n > 0, events := st.events + [n > 0])
  }

  function Put(st: State, i: nat, c: Call): (st': State)
    requires i < |st.calls|
  {
    st.(calls := st.calls[i := c])
  }

  predicate Enabled(st: State, step: Step) {
    match step
    case Begin(_) => true
    case Respond(i, _) => i < |st.calls| && st.calls[i].phase.Fetching?
    case Wake(i) => i < |st.calls| && st.calls[i].phase.Sleeping?
    case Body(i, _) => i < |st.calls| && st.calls[i].phase.Reading?
    case Release(i) => i < |st.calls| && st.calls[i].phase.Done? && !st.calls[i].released
  }

  /** A call that ends takes its notice back. */
  function Finish(st: State, notified: bool): (st': State) { if notified then Notify(st, false) else st }

  function After(st: State, step: Step): (st': State)
    requires Enabled(st, step)
  {
    match step
    case Begin(path) =>
      if path in st.open then st
      else st.(calls := st.calls + [NewCall(path)], open := st.open[path := |st.calls|])
    case Respond(i, r) =>
      var c := st.calls[i];
      var next := Put(st, i, Responded(c, r));
      if Retries(c, r) then (if c.notified then next else Notify(next, true))
      else if IsOk(r) then next
      else Finish(next, c.notified)
    case Wake(i) => Put(st, i, Woken(st.calls[i]))
    case Body(i, parsed) => Finish(Put(st, i, st.calls[i].(phase := Done(parsed))), st.calls[i].notified)
    case Release(i) => Put(st, i, st.calls[i].(released := true)).(open := st.open - {st.calls[i].path})
  }

  /** The page's mutable state. */
  class Page {
    var calls: seq<Call>
    var open: map<string, nat>
    var inflight: int
    var visible: bool
    var events: seq<bool>

    ghost function View(): (st: State) reads this { State(calls, open, inflight, visible, events) }

    constructor ()
      ensures View() == START
    {
      calls, open, inflight, visible, events := [], map[], 0, false, [];
    }

    method SetWarmup(active: bool)
      modifies this`inflight, this`visible, this`events
      ensures View() == Notify(old(View()), active)
    {
      if active { inflight := inflight + 1; } else { inflight := if inflight - 1 < 0 then 0 else inflight - 1; }
      visible := inflight > 0;
      events := events + [visible];
    }

    method CallApi(path: string)
      modifies this
      ensures View() == After(old(View()), Begin(path))
    {
      if path in open { return; }
      open := open[path := |calls|];
      calls := calls + [NewCall(path)];
    }

    method OnResponse(i: nat, r: Response)
      requires Enabled(View(), Respond(i, r))
      modifies this
      ensures View() == After(old(View()), Respond(i, r))
    {
      var c := calls[i];
      var log := c.log + [r];
      if Unavailable(r) && c.attempt < MAX_ATTEMPTS {
        var hinted := r.retryAfter.Some? && r.retryAfter.value > 0;
        var wait := if hinted then r.retryAfter.value * 1000 else c.delay;
        var waits := c.waits + [Min(wait, CEILING)];
        calls := calls[i := c.(log := log, notified := true, phase := Sleeping, waits := waits)];
        if !c.notified { SetWarmup(true); }
      } else if !IsOk(r) {
        calls := calls[i := c.(log := log, phase := Done(false))];
        if c.notified { SetWarmup(false); }
      } else {
        calls := calls[i := c.(log := log, phase := Reading)];
      }
    }

    method OnTimer(i: nat)
      requires Enabled(View(), Wake(i))
      modifies this
      ensures View() == After(old(View()), Wake(i))
    {
      var c := calls[i];
      calls := calls[i := c.(phase := Fetching, delay := Min(c.delay * 2, CEILING), attempt := c.attempt + 1)];
    }

    method OnBody(i: nat, parsed: bool)
      requires Enabled(View(), Body(i, parsed))
      modifies this
      ensures View() == After(old(View()), Body(i, parsed))
    {
      var c := calls[i];
      calls := calls[i := c.(phase := Done(parsed))];
      if c.notified { SetWarmup(false); }
    }

    method OnSettled(i: nat)
      requires Enabled(View(), Release(i))
      modifies this
      ensures View() == After(old(View()), Release(i))
    {
      open := open - {calls[i].path};
      calls := calls[i := calls[i].(released := true)];
    }
  }

  // ---- what one call's history looks like ----

  /** The waiting time without a hint, by retry number: 1 s doubling up to 30 s. */
  function Backoff(n: nat): (w: nat) { if n == 0 then 1000 else Min(2 * Backoff(n - 1), CEILING) }

  predicate AllUnavailable(log: seq<Response>) { forall r | r in log :: Unavailable(r) }

  predicate SawUnavailable(c: Call) { exists r | r in c.log :: Unavailable(r) }

  /** A call is settled by its history: so many refusals, each followed by a wait, then one decisive answer. */
  ghost predicate Coherent(c: Call) {
    && c.attempt <= MAX_ATTEMPTS && c.delay == Backoff(c.attempt)
    && (c.notified <==> SawUnavailable(c))
    && |c.waits| <= |c.log| && AllUnavailable(c.log[..|c.waits|])
    && (forall n | 0 <= n < |c.waits| :: c.waits[n] == WaitAfter(Backoff(n), c.log[n]))
    && (c.released ==> c.phase.Done?)
    && match c.phase
       case Fetching => |c.log| == |c.waits| == c.attempt
       case Sleeping => |c.log| == |c.waits| == c.attempt + 1 <= MAX_ATTEMPTS
       case Reading => |c.log| == c.attempt + 1 && |c.waits| == c.attempt && IsOk(c.log[c.attempt])
       case Done(success) =>
         && |c.log| == c.attempt + 1 && |c.waits| == c.attempt
         && (success ==> IsOk(c.log[c.attempt]))
         && (Unavailable(c.log[c.attempt]) ==> c.attempt == MAX_ATTEMPTS)
  }

  lemma RetriedCoherent(c: Call, r: Response)
    requires Coherent(c) && c.phase.Fetching? && Retries(c, r)
    ensures Coherent(Responded(c, r))
  {
    var c' := Responded(c, r);
    assert c.log[..|c.waits|] == c.log;
    assert c'.log[..|c'.waits|] == c'.log == c.log + [r];
    assert r in c'.log;
  }

  lemma DecidedCoherent(c: Call, r: Response)
    requires Coherent(c) && c.phase.Fetching? && !Retries(c, r)
    ensures Coherent(Responded(c, r))
  {
    var c' := Responded(c, r);
    assert c'.log[..|c.waits|] == c.log == c.log[..|c.waits|];
    if c.attempt > 0 {
      assert Unavailable(c.log[0]) && c.log[0] == c'.log[0];
    }
  }

  lemma WokenCoherent(c: Call)
    requires Coherent(c) && c.phase.Sleeping?
    ensures Coherent(Woken(c))
  {
  }

  // ---- totals over the calls ----

  ghost function Total(calls: seq<Call>, f: Call -> int): (n: int) {
    if calls == [] then 0 else Total(calls[..|calls| - 1], f) + f(calls[|calls| - 1])
  }

  lemma {:induction false} TotalUpdate(calls: seq<Call>, i: nat, c: Call, f: Call -> int)
    requires i < |calls|
    ensures Total(calls[i := c], f) == Total(calls, f) - f(calls[i]) + f(c)
  {
    var n := |calls| - 1;
    if i == n {
      assert calls[i := c][..n] == calls[..n];
    } else {
      assert calls[i := c][..n] == calls[..n][i := c];
      TotalUpdate(calls[..n], i, c, f);
    }
  }

  lemma TotalAppend(calls: seq<Call>, c: Call, f: Call -> int)
    ensures Total(calls + [c], f) == Total(calls, f) + f(c)
  {
    assert (calls + [c])[..|calls|] == calls;
  }

  lemma {:induction false} TotalPositive(calls: seq<Call>, p: Call -> bool, f: Call -> int)
    requires forall c :: f(c) == if p(c) then 1 else 0
    ensures Total(calls, f) >= 0
    ensures Total(calls, f) > 0 <==> exists c | c in calls :: p(c)
  {
    if calls != [] {
      var n := |calls| - 1;
      TotalPositive(calls[..n], p, f);
      assert calls == calls[..n] + [calls[n]];
      if Total(calls[..n], f) > 0 {
        var c :| c in calls[..n] && p(c);
        assert c in calls;
      } else if p(calls[n]) {
        assert calls[n] in calls;
      }
    }
  }

  // ---- the invariant ----

  /** Between its first 503 and its end. */
  predicate Warming(c: Call) { SawUnavailable(c) && !c.phase.Done? }

  function Holding(c: Call): (n: int) { if c.notified && !c.phase.Done? then 1 else 0 }

  ghost predicate CallsCoherent(calls: seq<Call>) { forall i: nat | i < |calls| :: Coherent(calls[i]) }

  ghost predicate BannerExact(st: State) {
    && st.inflight == Total(st.calls, Holding)
    && st.visible == (st.inflight > 0)
    && st.visible == (st.events != [] && st.events[|st.events| - 1])
  }

  /** A path in flight belongs to exactly one call that was not released. */
  ghost predicate OpenExact(calls: seq<Call>, open: map<string, nat>) {
    && (forall path | path in open ::
          open[path] < |calls| && calls[open[path]].path == path && !calls[open[path]].released)
    && (forall i: nat | i < |calls| && !calls[i].released :: calls[i].path in open && open[calls[i].path] == i)
  }

  ghost predicate Inv(st: State) { CallsCoherent(st.calls) && BannerExact(st) && OpenExact(st.calls, st.open) }

  lemma HoldingTotal(calls: seq<Call>)
    ensures Total(calls, Holding) >= 0
    ensures Total(calls, Holding) > 0 <==> exists c | c in calls :: c.notified && !c.phase.Done?
  {
    TotalPositive(calls, (c: Call) => c.notified && !c.phase.Done?, Holding);
  }

  /** Counting stays exact when one call changes and the banner is told about it. */
  lemma BannerStep(st: State, i: nat, c: Call, st': State)
    requires BannerExact(st) && i < |st.calls| && st'.calls == st.calls[i := c]
    requires
      var before, now := Holding(st.calls[i]), Holding(c);
      || (before == now && st' == Put(st, i, c))
      || (before == 0 && now == 1 && st' == Notify(Put(st, i, c), true))
      || (before == 1 && now == 0 && st' == Notify(Put(st, i, c), false))
    ensures BannerExact(st')
  {
    TotalUpdate(st.calls, i, c, Holding);
    HoldingTotal(st.calls);
    HoldingTotal(st'.calls);
  }

  lemma CallStep(calls: seq<Call>, open: map<string, nat>, i: nat, c: Call)
    requires CallsCoherent(calls) && OpenExact(calls, open) && i < |calls|
    requires Coherent(c) && c.path == calls[i].path && c.released == calls[i].released
    ensures CallsCoherent(calls[i := c]) && OpenExact(calls[i := c], open)
  {
    OpenStep(calls, open, i, c);
  }

  lemma OpenStep(calls: seq<Call>, open: map<string, nat>, i: nat, c: Call)
    requires OpenExact(calls, open) && i < |calls| && c.path == calls[i].path && c.released == calls[i].released
    ensures OpenExact(calls[i := c], open)
  {
  }

  lemma RespondKeeps(st: State, i: nat, r: Response)
    requires Inv(st) && Enabled(st, Respond(i, r))
    ensures Inv(After(st, Respond(i, r)))
  {
    RespondCalls(st.calls, st.open, i, r);
    RespondBanner(st, i, r);
    RespondShape(st, i, r);
  }

  lemma RespondCalls(calls: seq<Call>, open: map<string, nat>, i: nat, r: Response)
    requires CallsCoherent(calls) && OpenExact(calls, open) && i < |calls| && calls[i].phase.Fetching?
    ensures CallsCoherent(calls[i := Responded(calls[i], r)]) && OpenExact(calls[i := Responded(calls[i], r)], open)
  {
    if Retries(calls[i], r) { RetriedCoherent(calls[i], r); } else { DecidedCoherent(calls[i], r); }
    CallStep(calls, open, i, Responded(calls[i], r));
  }

  lemma RespondShape(st: State, i: nat, r: Response)
    requires Enabled(st, Respond(i, r))
    ensures After(st, Respond(i, r)).calls == st.calls[i := Responded(st.calls[i], r)]
    ensures After(st, Respond(i, r)).open == st.open
  {
  }

  lemma RespondBanner(st: State, i: nat, r: Response)
    requires BannerExact(st) && Enabled(st, Respond(i, r))
    ensures BannerExact(After(st, Respond(i, r)))
  {
    BannerStep(st, i, Responded(st.calls[i], r), After(st, Respond(i, r)));
  }

  lemma WakeKeeps(st: State, i: nat)
    requires Inv(st) && Enabled(st, Wake(i))
    ensures Inv(After(st, Wake(i)))
  {
    WokenCoherent(st.calls[i]);
    CallStep(st.calls, st.open, i, Woken(st.calls[i]));
    BannerStep(st, i, Woken(st.calls[i]), After(st, Wake(i)));
  }

  lemma BodyKeeps(st: State, i: nat, parsed: bool)
    requires Inv(st) && Enabled(st, Body(i, parsed))
    ensures Inv(After(st, Body(i, parsed)))
  {
    var c := st.calls[i].(phase := Done(parsed));
    ReadCoherent(st.calls[i], parsed);
    CallStep(st.calls, st.open, i, c);
    BannerStep(st, i, c, After(st, Body(i, parsed)));
  }

  lemma ReadCoherent(c: Call, parsed: bool)
    requires Coherent(c) && c.phase.Reading?
    ensures Coherent(c.(phase := Done(parsed)))
  {
  }

  lemma ReleaseKeeps(st: State, i: nat)
    requires Inv(st) && Enabled(st, Release(i))
    ensures Inv(After(st, Release(i)))
  {
    ReleaseBanner(st, i);
    ReleasedCoherent(st.calls, i);
    ReleasedOpen(st.calls, st.open, i, st.calls[i].(released := true));
  }

  lemma ReleaseBanner(st: State, i: nat)
    requires BannerExact(st) && Enabled(st, Release(i))
    ensures BannerExact(After(st, Release(i)))
  {
    var c := st.calls[i].(released := true);
    BannerStep(st, i, c, Put(st, i, c));
  }

  lemma ReleasedCoherent(calls: seq<Call>, i: nat)
    requires CallsCoherent(calls) && i < |calls| && calls[i].phase.Done?
    ensures CallsCoherent(calls[i := calls[i].(released := true)])
  {
    assert Coherent(calls[i].(released := true));
  }

  lemma ReleasedOpen(calls: seq<Call>, open: map<string, nat>, i: nat, c: Call)
    requires OpenExact(calls, open) && i < |calls| && !calls[i].released && c.released
    ensures OpenExact(calls[i := c], open - {calls[i].path})
  {
  }

  lemma BeginKeeps(st: State, path: string)
    requires Inv(st)
    ensures Inv(After(st, Begin(path)))
  {
    TotalAppend(st.calls, NewCall(path), Holding);
    if path !in st.open { BeginOpen(st.calls, st.open, path); }
  }

  lemma BeginOpen(calls: seq<Call>, open: map<string, nat>, path: string)
    requires OpenExact(calls, open) && path !in open
    ensures OpenExact(calls + [NewCall(path)], open[path := |calls|])
  {
  }

  lemma StepKeeps(st: State, step: Step)
    requires Inv(st) && Enabled(st, step)
    ensures Inv(After(st, step))
  {
    match step
    case Begin(path) => BeginKeeps(st, path);
    case Respond(i, r) => RespondKeeps(st, i, r);
    case Wake(i) => WakeKeeps(st, i);
    case Body(i, parsed) => BodyKeeps(st, i, parsed);
    case Release(i) => ReleaseKeeps(st, i);
  }

  // ---- every run ----

  predicate Runs(st: State, steps: seq<Step>)
    decreases |steps|
  {
    steps == [] || (Enabled(st, steps[0]) && Runs(After(st, steps[0]), steps[1..]))
  }

  function Final(st: State, steps: seq<Step>): (st': State)
    requires Runs(st, steps)
    decreases |steps|
  {
    if steps == [] then st else Final(After(st, steps[0]), steps[1..])
  }

  lemma {:induction false} RunKeeps(st: State, steps: seq<Step>)
    requires Inv(st) && Runs(st, steps)
    ensures Inv(Final(st, steps))
    decreases |steps|
  {
    if steps != [] {
      StepKeeps(st, steps[0]);
      RunKeeps(After(st, steps[0]), steps[1..]);
    }
  }

  /** However the calls interleave, the banner shows exactly while some call is between its first 503 and
      its end, and the last thing the page's hook heard is what the banner shows. */
  lemma BannerVisibleIff(steps: seq<Step>)
    requires Runs(START, steps)
    ensures var st := Final(START, steps);
            && (st.visible <==> exists c | c in st.calls :: Warming(c))
            && (st.visible <==> st.events != [] && st.events[|st.events| - 1])
  {
    RunKeeps(START, steps);
    var st := Final(START, steps);
    HoldingTotal(st.calls);
    forall c | c in st.calls ensures (c.notified && !c.phase.Done?) == Warming(c) {
      var i: nat :| i < |st.calls| && st.calls[i] == c;
      NoticeIs(st.calls, i);
    }
  }

  lemma NoticeIs(calls: seq<Call>, i: nat)
    requires CallsCoherent(calls) && i < |calls|
    ensures calls[i].notified <==> SawUnavailable(calls[i])
  {
    assert Coherent(calls[i]);
  }

  /** The page's hook hears of each notice once, and of nothing else: every step leaves what it has heard,
      and adds at most one state, the one that the banner then shows. */
  lemma EventsGrow(st: State, step: Step)
    requires Enabled(st, step)
    ensures var heard, now := st.events, After(st, step);
            now.events == heard || now.events == heard + [now.visible]
  {
  }

  /** Once all calls have returned or thrown, the counter is back at zero. */
  lemma QuietWhenAllDone(steps: seq<Step>)
    requires Runs(START, steps)
    requires forall c | c in Final(START, steps).calls :: c.phase.Done?
    ensures var st := Final(START, steps); st.inflight == 0 && !st.visible
  {
    RunKeeps(START, steps);
    HoldingTotal(Final(START, steps).calls);
  }

  /** Calls in progress are for different paths. */
  lemma OneCallPerPath(steps: seq<Step>, i: nat, j: nat)
    requires Runs(START, steps)
    requires i < j < |Final(START, steps).calls|
    requires !Final(START, steps).calls[i].phase.Done? && !Final(START, steps).calls[j].phase.Done?
    ensures Final(START, steps).calls[i].path != Final(START, steps).calls[j].path
  {
    RunKeeps(START, steps);
    var st := Final(START, steps);
    assert Coherent(st.calls[i]) && Coherent(st.calls[j]);
  }

  // ---- retries ----

  function Fetches(c: Call): (n: nat) { |c.log| + if c.phase.Fetching? then 1 else 0 }

  /** Each call fetches at most seven times, goes on only after a 503, and ends with success exactly on
      the first answer that is not one (if that is a success), giving up on the seventh 503. */
  lemma RetriesOnlyOn503(steps: seq<Step>, i: nat)
    requires Runs(START, steps) && i < |Final(START, steps).calls|
    ensures var c := Final(START, steps).calls[i];
            && Fetches(c) <= 7
            && (forall n: nat | n + 1 < Fetches(c) :: c.log[n].Reply? && c.log[n].status == 503)
            && (c.phase.Done? ==> c.log != [] && (!Unavailable(c.log[|c.log| - 1]) || |c.log| == 7))
            && (c.phase.Done? && c.phase.success ==>
                  c.log[|c.log| - 1].Reply? && 200 <= c.log[|c.log| - 1].status <= 299)
  {
    RunKeeps(START, steps);
    var c := Final(START, steps).calls[i];
    assert Coherent(c);
    forall n: nat | n + 1 < Fetches(c) ensures c.log[n].Reply? && c.log[n].status == 503 {
      assert c.log[..|c.waits|][n] == c.log[n] && c.log[n] in c.log[..|c.waits|];
    }
  }

  // ---- a call's history is what was sent to it ----

  /** The responses to call i, in order. */
  function Heard(steps: seq<Step>, i: nat): (log: seq<Response>) {
    if steps == [] then []
    else (if steps[0].Respond? && steps[0].i == i then [steps[0].r] else []) + Heard(steps[1..], i)
  }

  /** What came of reading the bodies for call i. */
  function Bodies(steps: seq<Step>, i: nat): (parsed: seq<bool>) {
    if steps == [] then []
    else (if steps[0].Body? && steps[0].i == i then [steps[0].parsed] else []) + Bodies(steps[1..], i)
  }

  /** The last response is no success and is not retried: it is no 503, or the seventh answer. */
  predicate Refused(log: seq<Response>) {
    && log != []
    && var last := log[|log| - 1];
       (last.Reply? ==> !(200 <= last.status <= 299) && (last.status == 503 ==> |log| == 7))
  }

  /** How a call stands after these responses and bodies. */
  ghost predicate Tracked(c: Call, log: seq<Response>, bodies: seq<bool>) {
    && c.log == log
    && match c.phase
       case Done(success) => bodies == [success] || (bodies == [] && !success && Refused(log))
       case _ => bodies == []
  }

  ghost predicate TrackedAt(st: State, i: nat, log: seq<Response>, bodies: seq<bool>) {
    if i < |st.calls| then Tracked(st.calls[i], log, bodies) else log == [] && bodies == []
  }

  lemma RespondTracked(c: Call, r: Response, log: seq<Response>)
    requires Coherent(c) && c.phase.Fetching? && c.log == log
    ensures Tracked(Responded(c, r), log + [r], [])
  {
    assert (log + [r])[|log + [r]| - 1] == r;
  }

  lemma StepTracked(st: State, step: Step, i: nat, log: seq<Response>, bodies: seq<bool>)
    requires CallsCoherent(st.calls) && Enabled(st, step) && TrackedAt(st, i, log, bodies)
    ensures TrackedAt(After(st, step), i, log + Heard([step], i), bodies + Bodies([step], i))
  {
    assert [step][1..] == [];
    assert Heard([step], i) == if step.Respond? && step.i == i then [step.r] else [];
    assert Bodies([step], i) == if step.Body? && step.i == i then [step.parsed] else [];
    assert log + [] == log && bodies + [] == bodies;
    if step.Respond? && step.i == i {
      assert Coherent(st.calls[i]);
      RespondTracked(st.calls[i], step.r, log);
      RespondShape(st, i, step.r);
    } else if !step.Begin? && step.i != i {
      OthersStay(st, step, i);
    }
  }

  lemma OthersStay(st: State, step: Step, i: nat)
    requires Enabled(st, step) && !step.Begin? && step.i != i
    ensures |After(st, step).calls| == |st.calls| && (i < |st.calls| ==> After(st, step).calls[i] == st.calls[i])
  {
  }

  lemma Regroup<T>(a: seq<T>, b: seq<T>, c: seq<T>, bc: seq<T>)
    requires bc == b + c
    ensures (a + b) + c == a + bc
  {
  }

  lemma HeardStep(steps: seq<Step>, i: nat)
    requires steps != []
    ensures Heard(steps, i) == Heard([steps[0]], i) + Heard(steps[1..], i)
    ensures Bodies(steps, i) == Bodies([steps[0]], i) + Bodies(steps[1..], i)
  {
    assert [steps[0]][1..] == [];
    assert Heard([steps[0]], i) == if steps[0].Respond? && steps[0].i == i then [steps[0].r] else [];
    assert Bodies([steps[0]], i) == if steps[0].Body? && steps[0].i == i then [steps[0].parsed] else [];
  }

  lemma TraceStep(steps: seq<Step>, i: nat, log: seq<Response>, bodies: seq<bool>)
    requires steps != []
    ensures (log + Heard([steps[0]], i)) + Heard(steps[1..], i) == log + Heard(steps, i)
    ensures (bodies + Bodies([steps[0]], i)) + Bodies(steps[1..], i) == bodies + Bodies(steps, i)
  {
    HeardStep(steps, i);
    Regroup(log, Heard([steps[0]], i), Heard(steps[1..], i), Heard(steps, i));
    Regroup(bodies, Bodies([steps[0]], i), Bodies(steps[1..], i), Bodies(steps, i));
  }

  lemma {:induction false} RunTracked(st: State, steps: seq<Step>, i: nat, log: seq<Response>, bodies: seq<bool>)
    requires Inv(st) && Runs(st, steps) && TrackedAt(st, i, log, bodies)
    ensures TrackedAt(Final(st, steps), i, log + Heard(steps, i), bodies + Bodies(steps, i))
    decreases |steps|
  {
    if steps == [] {
      assert log + [] == log && bodies + [] == bodies;
    } else {
      var next, log', bodies' := After(st, steps[0]), log + Heard([steps[0]], i), bodies + Bodies([steps[0]], i);
      StepKeeps(st, steps[0]);
      StepTracked(st, steps[0], i, log, bodies);
      RunTracked(next, steps[1..], i, log', bodies');
      TraceStep(steps, i, log, bodies);
    }
  }

  lemma {:induction false} BodiesIff(steps: seq<Step>, i: nat, parsed: bool)
    ensures parsed in Bodies(steps, i) <==> Body(i, parsed) in steps
  {
    if steps != [] {
      BodiesIff(steps[1..], i, parsed);
      assert steps == [steps[0]] + steps[1..];
    }
  }

  /** A call has had exactly the responses sent to it. It succeeds exactly if its body was parsed; it fails
      exactly if its body was not, or the last response was no success and is not retried. */
  lemma OutcomeIff(steps: seq<Step>, i: nat)
    requires Runs(START, steps) && i < |Final(START, steps).calls|
    ensures var c := Final(START, steps).calls[i];
            && c.log == Heard(steps, i)
            && (c.phase == Done(true) <==> Body(i, true) in steps)
            && (c.phase == Done(false) <==> Body(i, false) in steps || Refused(Heard(steps, i)))
  {
    FinalTracked(steps, i);
    FinalCoherent(steps, i);
    BodiesIff(steps, i, true);
    BodiesIff(steps, i, false);
    CallOutcome(Final(START, steps).calls[i], Heard(steps, i), Bodies(steps, i));
  }

  lemma FinalCoherent(steps: seq<Step>, i: nat)
    requires Runs(START, steps) && i < |Final(START, steps).calls|
    ensures Coherent(Final(START, steps).calls[i])
  {
    RunKeeps(START, steps);
  }

  lemma FinalTracked(steps: seq<Step>, i: nat)
    requires Runs(START, steps) && i < |Final(START, steps).calls|
    ensures Tracked(Final(START, steps).calls[i], Heard(steps, i), Bodies(steps, i))
  {
    StartTracked(i);
    RunTracked(START, steps, i, [], []);
    NothingFirst(Heard(steps, i));
    NothingFirst(Bodies(steps, i));
  }

  lemma StartTracked(i: nat)
    ensures Inv(START) && TrackedAt(START, i, [], [])
  {
  }

  lemma NothingFirst<T>(s: seq<T>)
    ensures [] + s == s
  {
  }

  lemma CallOutcome(c: Call, log: seq<Response>, bodies: seq<bool>)
    requires Coherent(c) && Tracked(c, log, bodies)
    ensures c.phase == Done(true) <==> true in bodies
    ensures c.phase == Done(false) <==> false in bodies || Refused(log)
  {
    if Refused(log) { RefusedIsDone(c); }
  }

  lemma RefusedIsDone(c: Call)
    requires Coherent(c) && Refused(c.log)
    ensures c.phase == Done(false)
  {
    forall k | 0 <= k < |c.waits| ensures Unavailable(c.log[k]) {
      assert c.log[..|c.waits|][k] == c.log[k] && c.log[k] in c.log[..|c.waits|];
    }
  }

  /** A call of the API starts a request exactly if no earlier one for the path is still in flight. */
  lemma BeginStartsIff(steps: seq<Step>, path: string)
    requires Runs(START, steps)
    ensures var st := Final(START, steps);
            var st' := After(st, Begin(path));
            if exists c :: c in st.calls && c.path == path && !c.released then st' == st
            else && |st'.calls| == |st.calls| + 1 && st'.calls[..|st.calls|] == st.calls
                 && st'.calls[|st.calls|].path == path && st'.calls[|st.calls|].phase == Fetching
  {
    RunKeeps(START, steps);
    var st := Final(START, steps);
    if c :| c in st.calls && c.path == path && !c.released {
      var i: nat :| i < |st.calls| && st.calls[i] == c;
    }
    if path in st.open { assert st.calls[st.open[path]] in st.calls; }
  }

  function Power(n: nat): (p: nat) { if n == 0 then 1 else 2 * Power(n - 1) }

  lemma {:induction false} BackoffIs(n: nat)
    ensures Backoff(n) == Min(1000 * Power(n), 30000)
  {
    if n > 0 { BackoffIs(n - 1); }
  }

  /** Each 503 that is retried is waited for: as many seconds as it asks for, or else one second doubled
      with each retry, but never more than thirty. */
  lemma WaitsAre(steps: seq<Step>, i: nat, n: nat)
    requires Runs(START, steps) && i < |Final(START, steps).calls| && n < |Final(START, steps).calls[i].waits|
    ensures var c := Final(START, steps).calls[i];
            && n < |c.log| && Unavailable(c.log[n])
            && c.waits[n] == Min(if Hinted(c.log[n]) then c.log[n].retryAfter.value * 1000 else 1000 * Power(n), 30000)
  {
    RunKeeps(START, steps);
    var c := Final(START, steps).calls[i];
    assert Coherent(c);
    assert c.log[..|c.waits|][n] == c.log[n];
    BackoffIs(n);
  }

  /** Time spent waiting. */
  function Waited(waits: seq<nat>): (t: nat) {
    if waits == [] then 0 else Waited(waits[..|waits| - 1]) + waits[|waits| - 1]
  }

  function BackoffTotal(n: nat): (t: nat) { if n == 0 then 0 else BackoffTotal(n - 1) + Backoff(n - 1) }

  predicate Hinted(r: Response) { r.Reply? && r.retryAfter.Some? && r.retryAfter.value > 0 }

  lemma {:induction false} WaitedExactly(c: Call, n: nat)
    requires Coherent(c) && n <= |c.waits|
    ensures Waited(c.waits[..n]) <= CEILING * n
    ensures (forall m | 0 <= m < n :: !Hinted(c.log[m])) ==> Waited(c.waits[..n]) == BackoffTotal(n)
  {
    if n > 0 {
      WaitedExactly(c, n - 1);
      assert c.waits[..n][..n - 1] == c.waits[..n - 1];
      BackoffBounded(n - 1);
    }
  }

  lemma {:induction false} BackoffBounded(n: nat)
    ensures 1000 <= Backoff(n) <= CEILING
  {
    if n > 0 { BackoffBounded(n - 1); }
  }

  /** A call never waits more than three minutes in all; a server that never sends a usable Retry-After
      and stays unavailable makes it wait 61 seconds in all, no more and no less. */
  lemma TotalWait(steps: seq<Step>, i: nat)
    requires Runs(START, steps) && i < |Final(START, steps).calls|
    ensures var c := Final(START, steps).calls[i];
            && Waited(c.waits) <= 180000
            && ((forall r | r in c.log :: !Hinted(r)) ==> Waited(c.waits) <= 61000)
            && ((forall r | r in c.log :: !Hinted(r) && Unavailable(r)) && c.phase.Done? ==> Waited(c.waits) == 61000)
  {
    RunKeeps(START, steps);
    CallWait(Final(START, steps).calls[i]);
  }

  lemma CallWait(c: Call)
    requires Coherent(c)
    ensures Waited(c.waits) <= 180000
    ensures (forall r | r in c.log :: !Hinted(r)) ==> Waited(c.waits) <= 61000
    ensures (forall r | r in c.log :: !Hinted(r) && Unavailable(r)) && c.phase.Done? ==> Waited(c.waits) == 61000
  {
    WaitedExactly(c, |c.waits|);
    assert c.waits[..|c.waits|] == c.waits;
    SixBackoffs(|c.waits|);
  }

  lemma SixBackoffs(n: nat)
    requires n <= MAX_ATTEMPTS
    ensures BackoffTotal(n) <= BackoffTotal(MAX_ATTEMPTS) == 61000
  {
    assert Backoff(1) == 2000 && Backoff(2) == 4000 && Backoff(3) == 8000 && Backoff(4) == 16000 && Backoff(5) == 30000;
    assert BackoffTotal(1) == 1000 && BackoffTotal(2) == 3000 && BackoffTotal(3) == 7000;
    assert BackoffTotal(4) == 15000 && BackoffTotal(5) == 31000;
  }

  // ---- every run ends ----

  /** How many more steps a call can take. */
  function Remaining(c: Call): (n: int) {
    match c.phase
    case Fetching => 2 * (MAX_ATTEMPTS - c.attempt) + 3
    case Sleeping => 2 * (MAX_ATTEMPTS - c.attempt) + 2
    case Reading => 2
    case Done(_) => if c.released then 0 else 1
  }

  function Begins(steps: seq<Step>): (n: nat) {
    if steps == [] then 0 else (if steps[0].Begin? then 1 else 0) + Begins(steps[1..])
  }

  lemma StepSpends(st: State, step: Step)
    requires Enabled(st, step)
    requires step.Respond? ==> st.calls[step.i].attempt <= MAX_ATTEMPTS
    ensures Total(After(st, step).calls, Remaining) + 1 <= Total(st.calls, Remaining) + if step.Begin? then 16 else 0
  {
    match step
    case Begin(path) => TotalAppend(st.calls, NewCall(path), Remaining);
    case Respond(i, r) =>
      RespondSpends(st.calls[i], r);
      TotalUpdate(st.calls, i, Responded(st.calls[i], r), Remaining);
    case Wake(i) => TotalUpdate(st.calls, i, Woken(st.calls[i]), Remaining);
    case Body(i, parsed) => TotalUpdate(st.calls, i, st.calls[i].(phase := Done(parsed)), Remaining);
    case Release(i) => TotalUpdate(st.calls, i, st.calls[i].(released := true), Remaining);
  }

  lemma RespondSpends(c: Call, r: Response)
    requires c.phase.Fetching? && c.attempt <= MAX_ATTEMPTS
    ensures Remaining(Responded(c, r)) < Remaining(c)
  {
  }

  lemma {:induction false} RemainingNatural(calls: seq<Call>)
    requires CallsCoherent(calls)
    ensures Total(calls, Remaining) >= 0
  {
    if calls != [] {
      assert Coherent(calls[|calls| - 1]);
      RemainingNatural(calls[..|calls| - 1]);
    }
  }

  lemma {:induction false} RunSpends(st: State, steps: seq<Step>)
    requires Inv(st) && Runs(st, steps)
    ensures |steps| + Total(Final(st, steps).calls, Remaining) <= Total(st.calls, Remaining) + 16 * Begins(steps)
    decreases |steps|
  {
    if steps != [] {
      assert steps[0].Respond? ==> Coherent(st.calls[steps[0].i]);
      StepSpends(st, steps[0]);
      StepKeeps(st, steps[0]);
      RunSpends(After(st, steps[0]), steps[1..]);
    }
  }

  /** No interleaving goes on for ever: a run takes at most sixteen steps for each call of the API. */
  lemma RunBounded(steps: seq<Step>)
    requires Runs(START, steps)
    ensures |steps| <= 16 * Begins(steps)
  {
    RunSpends(START, steps);
    RunKeeps(START, steps);
    RemainingNatural(Final(START, steps).calls);
  }

  /** A run in which nothing but a new call can happen has all calls finished and the banner hidden. */
  lemma StuckMeansQuiet(steps: seq<Step>)
    requires Runs(START, steps)
    requires forall step: Step :: Enabled(Final(START, steps), step) ==> step.Begin?
    ensures var st := Final(START, steps);
            !st.visible && st.open == map[] && forall c | c in st.calls :: c.phase.Done?
  {
    RunKeeps(START, steps);
    var st := Final(START, steps);
    forall i: nat | i < |st.calls| ensures st.calls[i].phase.Done? && st.calls[i].released { StuckCall(st, i); }
    HoldingTotal(st.calls);
    assert forall path :: path !in st.open;
  }

  lemma StuckCall(st: State, i: nat)
    requires i < |st.calls|
    requires forall step: Step :: Enabled(st, step) ==> step.Begin?
    ensures st.calls[i].phase.Done? && st.calls[i].released
  {
    assert !Enabled(st, Respond(i, Failed)) && !Enabled(st, Wake(i)) && !Enabled(st, Body(i, true))
           && !Enabled(st, Release(i));
  }
}
