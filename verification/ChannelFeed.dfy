/** The message list of the open channel: live messages arrive over the WebSocket while REST fetches
    are in flight, and every REST result is merged instead of replacing the list. */
module ChannelFeed {
  import opened Common

  /** Where a message came from: a model-only tag. Live messages carry their arrival number. */
  datatype Origin = Rest(channel: string) | Live(channel: string, arrival: nat)

  /** The empty hash stands for a missing one; `observers` may be missing on REST messages. */
  datatype Msg = Msg(
    hash: string, body: string, id: string, origin: Origin,
    repeats: nat, observers: Option<seq<string>>, fromWs: bool, wsAt: nat)

  datatype Request = Request(id: nat, hash: string, region: string)

  /** `selected` is empty when no channel is open. */
  datatype State = State(selected: string, messages: seq<Msg>, region: string, requestId: nat, arrivals: nat)

  /** A live packet; `accepted` is the region filter's answer, the empty observer a missing one. */
  datatype Packet = Packet(accepted: bool, channel: string, hash: string, body: string, id: string, observer: string)

  datatype Event =
    | Select(hash: string)
    | Deselect
    | ClearMessages
    | SetRegion(region: string)
    | BeginRefresh
    | Batch(packets: seq<Packet>, now: nat)
    | Reply(req: Request, rest: seq<Msg>, now: nat)
    | RefreshReply(req: Request, rest: seq<Msg>, regionSwitch: bool, now: nat)
    | CacheHit(req: Request, rest: seq<Msg>, now: nat)

  const MAX_WS_SURVIVOR_MS := 300000

  // ---- merging a REST result ----

  predicate Aged(m: Msg, now: nat) { m.wsAt != 0 && now - m.wsAt > MAX_WS_SURVIVOR_MS }

  predicate HasHash(msgs: seq<Msg>, h: string) { h != "" && exists i :: 0 <= i < |msgs| && msgs[i].hash == h }

  predicate Survives(m: Msg, rest: seq<Msg>, now: nat) {
    m.fromWs && !Aged(m, now) && !HasHash(rest, m.hash)
  }

  ghost function Survivors(current: seq<Msg>, rest: seq<Msg>, now: nat): (r: seq<Msg>) {
    if current == [] then []
    else
      var m := current[|current| - 1];
      Survivors(current[..|current| - 1], rest, now) + (if Survives(m, rest, now) then [m] else [])
  }

  /** The REST result in its own order, then the survivors in theirs. */
  ghost function Merge(current: seq<Msg>, rest: seq<Msg>, now: nat): (r: seq<Msg>) {
    rest + Survivors(current, rest, now)
  }

  method MergeWsAppendedIntoRest(current: seq<Msg>, rest: seq<Msg>, now: nat) returns (merged: seq<Msg>)
    ensures merged == Merge(current, rest, now)
  {
    var restHashes: set<string> := {};
    for i := 0 to |rest|
      invariant forall h :: h in restHashes <==> HasHash(rest[..i], h)
    {
      assert rest[..i + 1] == rest[..i] + [rest[i]];
      if rest[i].hash != "" { restHashes := restHashes + {rest[i].hash}; }
    }
    assert rest[..|rest|] == rest;
    var survivors: seq<Msg> := [];
    for j := 0 to |current|
      invariant survivors == Survivors(current[..j], rest, now)
    {
      assert current[..j + 1][..j] == current[..j];
      var m := current[j];
      if !m.fromWs { continue; }
      if m.wsAt != 0 && now - m.wsAt > MAX_WS_SURVIVOR_MS { continue; }
      if m.hash != "" && m.hash in restHashes { continue; }
      survivors := survivors + [m];
    }
    assert current[..|current|] == current;
    return rest + survivors;
  }

  // ---- one live packet ----

  /** Position of the message with that hash; the length when there is none. */
  function FindHash(msgs: seq<Msg>, h: string): (i: nat)
    ensures i <= |msgs|
    ensures i < |msgs| ==> msgs[i].hash == h
    ensures forall j :: 0 <= j < i ==> msgs[j].hash != h
  {
    if msgs == [] || msgs[0].hash == h then 0 else 1 + FindHash(msgs[1..], h)
  }

  /** A second observation of a known packet. */
  function Observe(m: Msg, observer: string, now: nat): (r: Msg) {
    m.(repeats := (if m.repeats == 0 then 1 else m.repeats) + 1,
       observers := if observer != "" && m.observers.Some? && observer !in m.observers.value
                    then Some(m.observers.value + [observer]) else m.observers,
       fromWs := true, wsAt := now)
  }

  function Fresh(p: Packet, arrival: nat, now: nat): (m: Msg) {
    var observers := if p.observer != "" then [p.observer] else [];
    Msg(p.hash, p.body, p.id, Live(p.channel, arrival), 1, Some(observers), true, now)
  }

  function Receive(s: State, p: Packet, now: nat): (s': State) {
    if !p.accepted || p.channel == "" || p.channel != s.selected then s
    else
      var i := if p.hash == "" then |s.messages| else FindHash(s.messages, p.hash);
      if i < |s.messages| then s.(messages := s.messages[i := Observe(s.messages[i], p.observer, now)])
      else s.(messages := s.messages + [Fresh(p, s.arrivals, now)], arrivals := s.arrivals + 1)
  }

  ghost function ReceiveAll(s: State, packets: seq<Packet>, now: nat): (s': State) {
    Fold((s: State, p: Packet) => Receive(s, p, now), s, packets)
  }

  // ---- all steps ----

  predicate Stale(s: State, req: Request) {
    req.id != s.requestId || s.selected != req.hash || s.region != req.region
  }

  function LastId(msgs: seq<Msg>): (id: string) { if msgs == [] then "" else msgs[|msgs| - 1].id }

  /** The refresh takes an equally long list with the same last id for unchanged. */
  predicate LooksUnchanged(s: State, rest: seq<Msg>) {
    |rest| == |s.messages| && LastId(rest) == LastId(s.messages)
  }

  ghost function Next(s: State, e: Event): (s': State) {
    match e
    case Select(h) => s.(selected := h, messages := [], requestId := s.requestId + 1)
    case Deselect => s.(selected := "", messages := [])
    case ClearMessages => s.(messages := [])
    case SetRegion(r) => s.(region := r)
    case BeginRefresh => if s.selected == "" then s else s.(requestId := s.requestId + 1)
    case Batch(packets, now) => ReceiveAll(s, packets, now)
    case Reply(req, rest, now) =>
      if Stale(s, req) then s else s.(messages := Merge(s.messages, rest, now))
    case RefreshReply(req, rest, regionSwitch, now) =>
      if Stale(s, req) then s
      else if regionSwitch && req.region != "" && rest == [] then s.(messages := [])
      else if LooksUnchanged(s, rest) then s
      else s.(messages := Merge(s.messages, rest, now))
    case CacheHit(req, rest, now) => s.(messages := Merge(s.messages, rest, now))
  }

  ghost function Run(s: State, events: seq<Event>): (s': State) { Fold(Next, s, events) }

  /** The page's module-level variables and the handlers that update them. */
  class ChannelView {
    var selected: string
    var messages: seq<Msg>
    var region: string
    var requestId: nat
    var arrivals: nat

    ghost function View(): (s: State) reads this { State(selected, messages, region, requestId, arrivals) }

    constructor ()
      ensures View() == State("", [], "", 0, 0)
    {
      selected, messages, region, requestId, arrivals := "", [], "", 0, 0;
    }

    method SelectChannel(hash: string) returns (req: Request)
      modifies this
      ensures View() == Next(old(View()), Select(hash))
      ensures req == Request(requestId, hash, region) && !Stale(View(), req)
    {
      requestId := requestId + 1;
      req := Request(requestId, hash, region);
      messages := [];
      selected := hash;
    }

    method RefreshMessages() returns (req: Option<Request>)
      modifies this`requestId
      ensures View() == Next(old(View()), BeginRefresh)
      ensures req.Some? <==> selected != ""
      ensures req.Some? ==> !Stale(View(), req.value)
    {
      if selected == "" { return None; }
      requestId := requestId + 1;
      return Some(Request(requestId, selected, region));
    }

    method ProcessWsBatch(packets: seq<Packet>, now: nat)
      modifies this`messages, this`arrivals
      ensures View() == Next(old(View()), Batch(packets, now))
    {
      ghost var step := (s: State, p: Packet) => Receive(s, p, now);
      for i := 0 to |packets|
        invariant View() == Fold(step, old(View()), packets[..i])
      {
        assert packets[..i + 1][..i] == packets[..i];
        ghost var before := View();
        var p := packets[i];
        if !p.accepted || p.channel == "" { continue; }
        if selected != "" && p.channel == selected {
          var k := if p.hash == "" then |messages| else FindHash(messages, p.hash);
          if k < |messages| {
            messages := messages[k := Observe(messages[k], p.observer, now)];
          } else {
            messages := messages + [Fresh(p, arrivals, now)];
            arrivals := arrivals + 1;
          }
        }
        assert View() == Receive(before, p, now);
      }
      assert packets[..|packets|] == packets;
    }

    method CompleteSelect(req: Request, rest: seq<Msg>, now: nat)
      modifies this`messages
      ensures View() == Next(old(View()), Reply(req, rest, now))
    {
      if req.id != requestId || selected != req.hash || region != req.region { return; }
      messages := MergeWsAppendedIntoRest(messages, rest, now);
    }

    method CompleteRefresh(req: Request, rest: seq<Msg>, regionSwitch: bool, now: nat)
      modifies this`messages
      ensures View() == Next(old(View()), RefreshReply(req, rest, regionSwitch, now))
    {
      if req.id != requestId || selected != req.hash || region != req.region { return; }
      if regionSwitch && req.region != "" && |rest| == 0 {
        messages := [];
        return;
      }
      if |rest| == |messages| && LastId(rest) == LastId(messages) { return; }
      messages := MergeWsAppendedIntoRest(messages, rest, now);
    }

    /** The cache callback of the decrypting path; unlike the others it does not look at the request. */
    method OnCacheHit(req: Request, cached: seq<Msg>, now: nat)
      modifies this`messages
      ensures View() == Next(old(View()), CacheHit(req, cached, now))
    {
      messages := MergeWsAppendedIntoRest(messages, cached, now);
    }
  }

  // ---- facts about merging ----

  ghost predicate Pairwise(msgs: seq<Msg>, r: (Msg, Msg) -> bool) {
    forall i, j :: 0 <= i < j < |msgs| ==> r(msgs[i], msgs[j])
  }

  ghost predicate All(msgs: seq<Msg>, p: Msg -> bool) { forall i :: 0 <= i < |msgs| ==> p(msgs[i]) }

  lemma {:induction false} SurvivorsAll(current: seq<Msg>, rest: seq<Msg>, now: nat, p: Msg -> bool)
    requires All(current, p)
    ensures All(Survivors(current, rest, now), p)
  {
    if current != [] { SurvivorsAll(current[..|current| - 1], rest, now, p); }
  }

  /** Survivors keep their relative order, and with it every property of pairs. */
  lemma {:induction false} SurvivorsPairwise(current: seq<Msg>, rest: seq<Msg>, now: nat, r: (Msg, Msg) -> bool)
    requires Pairwise(current, r)
    ensures Pairwise(Survivors(current, rest, now), r)
  {
    if current != [] {
      var front, m := current[..|current| - 1], current[|current| - 1];
      SurvivorsPairwise(front, rest, now, r);
      SurvivorsAll(front, rest, now, x => r(x, m));
    }
  }

  lemma {:induction false} SurvivorsIff(current: seq<Msg>, rest: seq<Msg>, now: nat, m: Msg)
    ensures m in Survivors(current, rest, now) <==> m in current && Survives(m, rest, now)
  {
    if current != [] {
      SurvivorsIff(current[..|current| - 1], rest, now, m);
      assert current == current[..|current| - 1] + [current[|current| - 1]];
    }
  }

  ghost predicate Cross(a: seq<Msg>, b: seq<Msg>, r: (Msg, Msg) -> bool) {
    forall i, j :: 0 <= i < |a| && 0 <= j < |b| ==> r(a[i], b[j])
  }

  lemma PairwiseConcat(a: seq<Msg>, b: seq<Msg>, r: (Msg, Msg) -> bool)
    requires Pairwise(a, r) && Pairwise(b, r) && Cross(a, b, r)
    ensures Pairwise(a + b, r)
  {}

  /** What a merged list holds: the whole REST result, and each current message that was stamped by the
      WebSocket at most five minutes ago (or bears no time) and whose hash, if any, the result lacks. */
  lemma MergeIff(current: seq<Msg>, rest: seq<Msg>, now: nat, m: Msg)
    ensures m in Merge(current, rest, now)
            <==> || m in rest
                 || (&& m in current && m.fromWs && (m.wsAt == 0 || now <= m.wsAt + 5 * 60 * 1000)
                     && (m.hash == "" || forall i :: 0 <= i < |rest| ==> rest[i].hash != m.hash))
  {
    SurvivorsIff(current, rest, now, m);
  }

  /** A merge keeps a live message exactly if it is stamped, not too old and not in the REST result. */
  lemma MergeKeepsLiveIff(current: seq<Msg>, rest: seq<Msg>, now: nat, m: Msg)
    requires m in current && m.origin.Live? && forall i :: 0 <= i < |rest| ==> rest[i].origin.Rest?
    ensures m in Merge(current, rest, now) <==> m.fromWs && !Aged(m, now) && !HasHash(rest, m.hash)
  {
    SurvivorsIff(current, rest, now, m);
  }

  /** The REST result comes first, unchanged; what follows stands in the order of the current list, each
      message at most once for each place it had there. */
  lemma {:induction false} MergeOrder(current: seq<Msg>, rest: seq<Msg>, now: nat) returns (at: seq<nat>)
    ensures var merged := Merge(current, rest, now);
            && |merged| == |rest| + |at| && merged[..|rest|] == rest
            && (forall k :: 0 <= k < |at| ==> at[k] < |current| && merged[|rest| + k] == current[at[k]])
            && (forall k, l :: 0 <= k < l < |at| ==> at[k] < at[l])
  {
    at := [];
    if current != [] {
      var n := |current| - 1;
      at := MergeOrder(current[..n], rest, now);
      assert forall k :: 0 <= k < |at| ==> current[at[k]] == current[..n][at[k]];
      if Survives(current[n], rest, now) { at := at + [n]; }
    }
  }

  // ---- invariants of every run ----

  predicate DiffHash(a: Msg, b: Msg) { a.hash == "" || a.hash != b.hash }

  predicate InOrder(a: Msg, b: Msg) { a.origin.Live? && b.origin.Live? ==> a.origin.arrival < b.origin.arrival }

  ghost predicate UniqueHashes(msgs: seq<Msg>) { Pairwise(msgs, DiffHash) }

  ghost predicate ArrivalOrder(msgs: seq<Msg>) { Pairwise(msgs, InOrder) }

  predicate LiveIn(m: Msg, channel: string, arrivals: nat) {
    m.origin.Live? ==> m.origin.channel == channel && m.origin.arrival < arrivals && m.fromWs
  }

  /** No two messages share a hash; live messages stand in order of arrival; and every live message
      arrived on the channel that is open now. */
  ghost predicate Inv(s: State) {
    && UniqueHashes(s.messages) && ArrivalOrder(s.messages)
    && All(s.messages, (m: Msg) => LiveIn(m, s.selected, s.arrivals))
  }

  ghost predicate IsRestList(rest: seq<Msg>) {
    UniqueHashes(rest) && All(rest, (m: Msg) => m.origin.Rest?)
  }

  /** REST and cache results hold fetched messages with distinct hashes, for the requested channel. */
  ghost predicate Plausible(e: Event) {
    match e
    case Reply(req, rest, _) => IsRestList(rest) && All(rest, (m: Msg) => m.origin == Rest(req.hash))
    case RefreshReply(req, rest, _, _) => IsRestList(rest) && All(rest, (m: Msg) => m.origin == Rest(req.hash))
    case CacheHit(req, rest, _) => IsRestList(rest) && All(rest, (m: Msg) => m.origin == Rest(req.hash))
    case _ => true
  }

  lemma MergeInv(s: State, rest: seq<Msg>, now: nat)
    requires Inv(s) && IsRestList(rest)
    ensures Inv(s.(messages := Merge(s.messages, rest, now)))
  {
    var kept := Survivors(s.messages, rest, now);
    SurvivorsPairwise(s.messages, rest, now, DiffHash);
    SurvivorsPairwise(s.messages, rest, now, InOrder);
    SurvivorsAll(s.messages, rest, now, (m: Msg) => LiveIn(m, s.selected, s.arrivals));
    SurvivorsAbsent(s.messages, rest, now);
    PairwiseConcat(rest, kept, DiffHash);
    PairwiseConcat(rest, kept, InOrder);
  }

  lemma SurvivorsAbsent(current: seq<Msg>, rest: seq<Msg>, now: nat)
    ensures Cross(rest, Survivors(current, rest, now), DiffHash)
  {
    var kept := Survivors(current, rest, now);
    forall i, j | 0 <= i < |rest| && 0 <= j < |kept| ensures DiffHash(rest[i], kept[j]) {
      SurvivorsIff(current, rest, now, kept[j]);
      assert kept[j] in kept;
    }
  }

  lemma ReceiveInv(s: State, p: Packet, now: nat)
    requires Inv(s)
    ensures Inv(Receive(s, p, now))
  {
    var s' := Receive(s, p, now);
    if |s'.messages| > |s.messages| {
      PairwiseConcat(s.messages, [Fresh(p, s.arrivals, now)], DiffHash);
      PairwiseConcat(s.messages, [Fresh(p, s.arrivals, now)], InOrder);
    }
  }

  lemma {:induction false} ReceiveAllInv(s: State, packets: seq<Packet>, now: nat)
    requires Inv(s)
    ensures Inv(ReceiveAll(s, packets, now))
  {
    if packets != [] {
      var front := packets[..|packets| - 1];
      ReceiveAllInv(s, front, now);
      ReceiveInv(ReceiveAll(s, front, now), packets[|packets| - 1], now);
    }
  }

  lemma NextInv(s: State, e: Event)
    requires Inv(s) && Plausible(e)
    ensures Inv(Next(s, e))
  {
    match e
    case Batch(packets, now) => ReceiveAllInv(s, packets, now);
    case Reply(_, rest, now) => MergeInv(s, rest, now);
    case RefreshReply(_, rest, _, now) => MergeInv(s, rest, now);
    case CacheHit(_, rest, now) => MergeInv(s, rest, now);
    case _ =>
  }

  /** In every reachable state of every run. */
  lemma RunInv(s: State, events: seq<Event>)
    requires Inv(s) && forall i :: 0 <= i < |events| ==> Plausible(events[i])
    ensures Inv(Run(s, events))
  {
    forall s: State, e: Event | Inv(s) && e in events ensures Inv(Next(s, e)) { NextInv(s, e); }
    FoldInvariant(Next, s, events, Inv);
  }

  // ---- one channel at a time ----

  /** Every visible message belongs to the open channel. */
  ghost predicate Clean(s: State) { All(s.messages, (m: Msg) => m.origin.channel == s.selected) }

  lemma MergeClean(s: State, rest: seq<Msg>, now: nat)
    requires Clean(s) && All(rest, (m: Msg) => m.origin == Rest(s.selected))
    ensures Clean(s.(messages := Merge(s.messages, rest, now)))
  {
    SurvivorsAll(s.messages, rest, now, (m: Msg) => m.origin.channel == s.selected);
  }

  lemma {:induction false} ReceiveAllClean(s: State, packets: seq<Packet>, now: nat)
    requires Clean(s)
    ensures Clean(ReceiveAll(s, packets, now)) && ReceiveAll(s, packets, now).selected == s.selected
  {
    if packets != [] { ReceiveAllClean(s, packets[..|packets| - 1], now); }
  }

  /** A cache result leaves the view clean exactly if it is for the open channel or empty. The callback
      does not check which. */
  lemma CacheHitCleanIff(s: State, req: Request, rest: seq<Msg>, now: nat)
    requires Clean(s) && Plausible(CacheHit(req, rest, now))
    ensures Clean(Next(s, CacheHit(req, rest, now))) <==> rest == [] || req.hash == s.selected
  {
    var merged := Merge(s.messages, rest, now);
    if rest == [] || req.hash == s.selected {
      MergeClean(s, rest, now);
    } else {
      assert merged[0] == rest[0] && rest[0].origin == Rest(req.hash);
    }
  }

  /** A cache result is empty or for the channel that is open. */
  predicate HitFits(s: State, e: Event) { e.CacheHit? ==> e.rest == [] || e.req.hash == s.selected }

  lemma NextCleanIff(s: State, e: Event)
    requires Clean(s) && Plausible(e)
    ensures Clean(Next(s, e)) <==> HitFits(s, e)
  {
    match e
    case Batch(packets, now) => ReceiveAllClean(s, packets, now);
    case Reply(req, rest, now) => if !Stale(s, req) { MergeClean(s, rest, now); }
    case RefreshReply(req, rest, _, now) => if !Stale(s, req) { MergeClean(s, rest, now); }
    case CacheHit(req, rest, now) => CacheHitCleanIff(s, req, rest, now);
    case _ =>
  }

  lemma RunStep(s: State, events: seq<Event>, e: Event)
    ensures Run(s, events + [e]) == Next(Run(s, events), e)
  {
    assert (events + [e])[..|events|] == events;
  }

  lemma RunPrefix(s: State, events: seq<Event>, i: nat)
    requires i < |events|
    ensures Run(s, events[..i + 1]) == Next(Run(s, events[..i]), events[i])
  {
    assert events[..i + 1] == events[..i] + [events[i]];
    RunStep(s, events[..i], events[i]);
  }

  ghost predicate CleanThroughout(s: State, events: seq<Event>) {
    forall i :: 0 <= i <= |events| ==> Clean(Run(s, events[..i]))
  }

  /** Every cache result of the run is empty or for the channel that is open when it arrives. */
  ghost predicate HitsFit(s: State, events: seq<Event>) {
    forall i :: 0 <= i < |events| ==> HitFits(Run(s, events[..i]), events[i])
  }

  lemma {:induction false} PrefixClean(s: State, events: seq<Event>, i: nat)
    requires Clean(s) && HitsFit(s, events) && forall i :: 0 <= i < |events| ==> Plausible(events[i])
    requires i <= |events|
    ensures Clean(Run(s, events[..i]))
  {
    if i > 0 {
      PrefixClean(s, events, i - 1);
      RunPrefix(s, events, i - 1);
      NextCleanIff(Run(s, events[..i - 1]), events[i - 1]);
    }
  }

  /** Whatever the interleaving of selections, live packets and replies, nothing of another channel is
      visible at any point of the run exactly if every cache result fits when it arrives. */
  lemma RunClean(s: State, events: seq<Event>)
    requires Clean(s) && forall i :: 0 <= i < |events| ==> Plausible(events[i])
    ensures CleanThroughout(s, events) <==> HitsFit(s, events)
  {
    if CleanThroughout(s, events) {
      forall i | 0 <= i < |events| ensures HitFits(Run(s, events[..i]), events[i]) {
        assert Clean(Run(s, events[..i])) && Clean(Run(s, events[..i + 1]));
        RunPrefix(s, events, i);
        NextCleanIff(Run(s, events[..i]), events[i]);
      }
    }
    if HitsFit(s, events) {
      forall i | 0 <= i <= |events| ensures Clean(Run(s, events[..i])) { PrefixClean(s, events, i); }
    }
  }

  /** The cache is consulted only after the channel's hash was computed, which takes a pause. Selecting
      another channel during that pause shows the first channel's cached messages in the second. */
  lemma StaleCacheHitLeaks(s: State, a: string, b: string, m: Msg, now: nat)
    requires a != b && m.origin == Rest(a)
    ensures var req := Request(s.requestId + 1, a, s.region);
            var s' := Run(s, [Select(a), Select(b), CacheHit(req, [m], now)]);
            s'.selected == b && s'.messages == [m]
  {
    var req := Request(s.requestId + 1, a, s.region);
    var e1, e2, e3 := Select(a), Select(b), CacheHit(req, [m], now);
    RunStep(s, [], e1);
    RunStep(s, [] + [e1], e2);
    RunStep(s, [] + [e1] + [e2], e3);
    assert [e1, e2, e3] == [] + [e1] + [e2] + [e3];
    assert Merge([], [m], now) == [m];
  }

  // ---- a live message survives ----

  /** The same message up to what further observations change. */
  predicate Same(a: Msg, b: Msg) { a.hash == b.hash && a.body == b.body && a.id == b.id && a.origin == b.origin }

  /** The message is still visible, stamped at `since` or later. */
  ghost predicate Visible(msgs: seq<Msg>, m: Msg, since: nat) {
    exists i :: 0 <= i < |msgs| && Same(msgs[i], m) && msgs[i].fromWs && msgs[i].wsAt >= since
  }

  /** The event does not end the message's stay: no switch or clearing, no emptied region, and no merge
      of a result that has its hash or comes later than the survivor limit after `since`; replies that
      are stale or ignored do no harm. */
  ghost predicate Harmless(s: State, e: Event, m: Msg, since: nat) {
    match e
    case Select(_) => false
    case Deselect => false
    case ClearMessages => false
    case SetRegion(_) => true
    case BeginRefresh => true
    case Batch(_, now) => now >= since
    case Reply(req, rest, now) => Stale(s, req) || Spares(rest, now, m, since)
    case RefreshReply(req, rest, regionSwitch, now) =>
      || Stale(s, req)
      || (!(regionSwitch && req.region != "" && rest == []) && (LooksUnchanged(s, rest) || Spares(rest, now, m, since)))
    case CacheHit(_, rest, now) => Spares(rest, now, m, since)
  }

  predicate Spares(rest: seq<Msg>, now: nat, m: Msg, since: nat) {
    !HasHash(rest, m.hash) && now <= since + MAX_WS_SURVIVOR_MS
  }

  /** Every event of the run is harmless in the state in which it happens. */
  ghost predicate HarmlessRun(s: State, events: seq<Event>, m: Msg, since: nat) {
    forall i :: 0 <= i < |events| ==> Harmless(Run(s, events[..i]), events[i], m, since)
  }

  lemma MergeVisible(msgs: seq<Msg>, rest: seq<Msg>, now: nat, m: Msg, since: nat)
    requires Visible(msgs, m, since) && !HasHash(rest, m.hash) && now <= since + MAX_WS_SURVIVOR_MS
    ensures Visible(Merge(msgs, rest, now), m, since)
  {
    var i :| 0 <= i < |msgs| && Same(msgs[i], m) && msgs[i].fromWs && msgs[i].wsAt >= since;
    SurvivorsIff(msgs, rest, now, msgs[i]);
    var kept := Survivors(msgs, rest, now);
    var k :| 0 <= k < |kept| && kept[k] == msgs[i];
    assert Merge(msgs, rest, now)[|rest| + k] == msgs[i];
  }

  lemma ReceiveVisible(s: State, p: Packet, now: nat, m: Msg, since: nat)
    requires Visible(s.messages, m, since) && now >= since
    ensures Visible(Receive(s, p, now).messages, m, since)
  {
    var i :| 0 <= i < |s.messages| && Same(s.messages[i], m) && s.messages[i].fromWs && s.messages[i].wsAt >= since;
    var after := Receive(s, p, now).messages;
    assert Same(after[i], m) && after[i].fromWs && after[i].wsAt >= since;
  }

  lemma {:induction false} ReceiveAllVisible(s: State, packets: seq<Packet>, now: nat, m: Msg, since: nat)
    requires Visible(s.messages, m, since) && now >= since
    ensures Visible(ReceiveAll(s, packets, now).messages, m, since)
  {
    if packets != [] {
      var front := packets[..|packets| - 1];
      ReceiveAllVisible(s, front, now, m, since);
      ReceiveVisible(ReceiveAll(s, front, now), packets[|packets| - 1], now, m, since);
    }
  }

  lemma NextVisible(s: State, e: Event, m: Msg, since: nat)
    requires Visible(s.messages, m, since) && Harmless(s, e, m, since)
    ensures Visible(Next(s, e).messages, m, since)
  {
    match e
    case Batch(packets, now) => ReceiveAllVisible(s, packets, now, m, since);
    case Reply(req, rest, now) => if !Stale(s, req) { MergeVisible(s.messages, rest, now, m, since); }
    case RefreshReply(req, rest, _, now) =>
      if !Stale(s, req) && !LooksUnchanged(s, rest) { MergeVisible(s.messages, rest, now, m, since); }
    case CacheHit(_, rest, now) => MergeVisible(s.messages, rest, now, m, since);
    case _ =>
  }

  lemma {:induction false} PrefixVisible(s: State, events: seq<Event>, m: Msg, since: nat, i: nat)
    requires Visible(s.messages, m, since) && HarmlessRun(s, events, m, since) && i <= |events|
    ensures Visible(Run(s, events[..i]).messages, m, since)
  {
    if i > 0 {
      PrefixVisible(s, events, m, since, i - 1);
      RunPrefix(s, events, i - 1);
      NextVisible(Run(s, events[..i - 1]), events[i - 1], m, since);
    }
  }

  /** A live message stays visible through every run of events that are harmless when they happen. */
  lemma RunVisible(s: State, events: seq<Event>, m: Msg, since: nat)
    requires Visible(s.messages, m, since) && HarmlessRun(s, events, m, since)
    ensures Visible(Run(s, events).messages, m, since)
  {
    PrefixVisible(s, events, m, since, |events|);
    assert events[..|events|] == events;
  }

  /** A packet for the open channel is visible at once, and stays so while nothing ends its stay. */
  lemma AppendedStaysVisible(s: State, p: Packet, now: nat, events: seq<Event>)
    requires p.accepted && p.channel != "" && p.channel == s.selected && !HasHash(s.messages, p.hash)
    requires HarmlessRun(Receive(s, p, now), events, Fresh(p, s.arrivals, now), now)
    ensures Visible(Run(Receive(s, p, now), events).messages, Fresh(p, s.arrivals, now), now)
  {
    var s' := Receive(s, p, now);
    assert s'.messages[|s.messages|] == Fresh(p, s.arrivals, now);
    RunVisible(s', events, Fresh(p, s.arrivals, now), now);
  }

  // ---- exactly when a live message goes ----

  ghost predicate Present(msgs: seq<Msg>, m: Msg) { exists i :: 0 <= i < |msgs| && Same(msgs[i], m) }

  predicate Drops(m: Msg, rest: seq<Msg>, now: nat) { Aged(m, now) || HasHash(rest, m.hash) }

  /** The event takes the live message out of the list: a switch or clearing, an emptied region, or a
      merge, by a reply that is neither stale nor ignored, with a result that has its hash or comes too late. */
  predicate Removes(s: State, e: Event, m: Msg) {
    match e
    case Select(_) => true
    case Deselect => true
    case ClearMessages => true
    case SetRegion(_) => false
    case BeginRefresh => false
    case Batch(_, _) => false
    case Reply(req, rest, now) => !Stale(s, req) && Drops(m, rest, now)
    case RefreshReply(req, rest, regionSwitch, now) =>
      && !Stale(s, req)
      && ((regionSwitch && req.region != "" && rest == []) || (!LooksUnchanged(s, rest) && Drops(m, rest, now)))
    case CacheHit(_, rest, now) => Drops(m, rest, now)
  }

  /** Live messages have arrival numbers of their own. */
  lemma SameIsOne(s: State, i: nat, j: nat)
    requires Inv(s) && i < |s.messages| && j < |s.messages| && s.messages[i].origin.Live?
    requires Same(s.messages[j], s.messages[i])
    ensures i == j
  {
    assert i < j ==> InOrder(s.messages[i], s.messages[j]);
    assert j < i ==> InOrder(s.messages[j], s.messages[i]);
  }

  lemma MergeDropsIff(s: State, rest: seq<Msg>, now: nat, i: nat)
    requires Inv(s) && i < |s.messages| && s.messages[i].origin.Live? && All(rest, (m: Msg) => m.origin.Rest?)
    ensures Present(Merge(s.messages, rest, now), s.messages[i]) <==> !Drops(s.messages[i], rest, now)
  {
    var m, kept := s.messages[i], Survivors(s.messages, rest, now);
    var merged := Merge(s.messages, rest, now);
    SurvivorsIff(s.messages, rest, now, m);
    if !Drops(m, rest, now) {
      assert LiveIn(m, s.selected, s.arrivals);
      var k :| 0 <= k < |kept| && kept[k] == m;
      assert merged[|rest| + k] == m;
    }
    if Present(merged, m) {
      var k :| 0 <= k < |merged| && Same(merged[k], m);
      assert k >= |rest|;
      assert merged[k] in kept;
      SurvivorsIff(s.messages, rest, now, merged[k]);
      var j :| 0 <= j < |s.messages| && s.messages[j] == merged[k];
      SameIsOne(s, i, j);
    }
  }

  lemma ReceivePresent(s: State, p: Packet, now: nat, m: Msg)
    requires m.origin.Live? && m.origin.arrival < s.arrivals
    ensures Present(Receive(s, p, now).messages, m) <==> Present(s.messages, m)
    ensures s.arrivals <= Receive(s, p, now).arrivals
  {
    var after := Receive(s, p, now).messages;
    assert forall i :: 0 <= i < |s.messages| ==> (Same(after[i], m) <==> Same(s.messages[i], m));
    if Present(s.messages, m) {
      var i :| 0 <= i < |s.messages| && Same(s.messages[i], m);
      assert Same(after[i], m);
    }
    if Present(after, m) {
      var i :| 0 <= i < |after| && Same(after[i], m);
      assert i < |s.messages|;
    }
  }

  lemma {:induction false} ReceiveAllPresent(s: State, packets: seq<Packet>, now: nat, m: Msg)
    requires m.origin.Live? && m.origin.arrival < s.arrivals
    ensures Present(ReceiveAll(s, packets, now).messages, m) <==> Present(s.messages, m)
    ensures s.arrivals <= ReceiveAll(s, packets, now).arrivals
  {
    if packets != [] {
      var front := packets[..|packets| - 1];
      ReceiveAllPresent(s, front, now, m);
      ReceivePresent(ReceiveAll(s, front, now), packets[|packets| - 1], now, m);
    }
  }

  /** In a reachable state, a single event takes a live message out of the list exactly if it removes it. */
  lemma NextKeepsIff(s: State, e: Event, i: nat)
    requires Inv(s) && Plausible(e) && i < |s.messages| && s.messages[i].origin.Live?
    ensures Present(Next(s, e).messages, s.messages[i]) <==> !Removes(s, e, s.messages[i])
  {
    var m := s.messages[i];
    assert LiveIn(m, s.selected, s.arrivals);
    assert Present(s.messages, m);
    match e
    case Batch(packets, now) => ReceiveAllPresent(s, packets, now, m);
    case Reply(req, rest, now) => MergeDropsIff(s, rest, now, i);
    case RefreshReply(req, rest, _, now) => MergeDropsIff(s, rest, now, i);
    case CacheHit(_, rest, now) => MergeDropsIff(s, rest, now, i);
    case _ =>
  }

  lemma MergeAbsent(msgs: seq<Msg>, rest: seq<Msg>, now: nat, m: Msg)
    requires m.origin.Live? && !Present(msgs, m) && All(rest, (m: Msg) => m.origin.Rest?)
    ensures !Present(Merge(msgs, rest, now), m)
  {
    var merged := Merge(msgs, rest, now);
    if Present(merged, m) {
      var k :| 0 <= k < |merged| && Same(merged[k], m);
      assert k >= |rest|;
      assert merged[k] in Survivors(msgs, rest, now);
      SurvivorsIff(msgs, rest, now, merged[k]);
      assert false;
    }
  }

  /** What is gone does not come back. */
  lemma NextAbsent(s: State, e: Event, m: Msg)
    requires Plausible(e) && m.origin.Live? && m.origin.arrival < s.arrivals
    ensures !Present(s.messages, m) ==> !Present(Next(s, e).messages, m)
    ensures s.arrivals <= Next(s, e).arrivals
  {
    match e
    case Batch(packets, now) => ReceiveAllPresent(s, packets, now, m);
    case Reply(_, rest, now) => if !Present(s.messages, m) { MergeAbsent(s.messages, rest, now, m); }
    case RefreshReply(_, rest, _, now) => if !Present(s.messages, m) { MergeAbsent(s.messages, rest, now, m); }
    case CacheHit(_, rest, now) => if !Present(s.messages, m) { MergeAbsent(s.messages, rest, now, m); }
    case _ =>
  }

  /** No event of the run removes the message, as it stands when the event happens. */
  ghost predicate Stays(s: State, events: seq<Event>, m: Msg) {
    events == [] ||
    var before, e := Run(s, events[..|events| - 1]), events[|events| - 1];
    && Stays(s, events[..|events| - 1], m)
    && forall i :: 0 <= i < |before.messages| && Same(before.messages[i], m) ==> !Removes(before, e, before.messages[i])
  }

  /** In every run a live message is in the list at the end exactly if no event on the way removed it. */
  lemma {:induction false} RunStaysIff(s: State, events: seq<Event>, m: Msg)
    requires Inv(s) && m.origin.Live? && Present(s.messages, m)
    requires forall i :: 0 <= i < |events| ==> Plausible(events[i])
    ensures Present(Run(s, events).messages, m) <==> Stays(s, events, m)
    ensures m.origin.arrival < Run(s, events).arrivals
  {
    if events == [] {
      var i :| 0 <= i < |s.messages| && Same(s.messages[i], m);
      assert LiveIn(s.messages[i], s.selected, s.arrivals);
    } else {
      var front, e := events[..|events| - 1], events[|events| - 1];
      var before := Run(s, front);
      RunStaysIff(s, front, m);
      RunInv(s, front);
      NextAbsent(before, e, m);
      if Present(before.messages, m) { StepStays(before, e, m); }
    }
  }

  lemma StepStays(s: State, e: Event, m: Msg)
    requires Inv(s) && Plausible(e) && m.origin.Live? && Present(s.messages, m)
    ensures Present(Next(s, e).messages, m)
            <==> forall i :: 0 <= i < |s.messages| && Same(s.messages[i], m) ==> !Removes(s, e, s.messages[i])
  {
    var i :| 0 <= i < |s.messages| && Same(s.messages[i], m);
    NextKeepsIff(s, e, i);
    forall j | 0 <= j < |s.messages| && Same(s.messages[j], m) ensures j == i { SameIsOne(s, i, j); }
    PresentSame(Next(s, e).messages, s.messages[i], m);
  }

  lemma PresentSame(msgs: seq<Msg>, a: Msg, b: Msg)
    requires Same(a, b)
    ensures Present(msgs, a) <==> Present(msgs, b)
  {
    forall i | 0 <= i < |msgs| ensures Same(msgs[i], a) <==> Same(msgs[i], b) {}
  }

  // ---- what a live packet does ----

  /** The packet is for the open channel and passes the region filter. */
  predicate Counts(p: Packet, channel: string) { p.accepted && p.channel != "" && p.channel == channel }

  /** A packet for the open channel whose hash is new, or missing, is appended with its own text and id,
      seen once, by its observer if it names one; any other packet appends nothing. */
  lemma ReceiveAppendsIff(s: State, p: Packet, now: nat)
    ensures var after := Receive(s, p, now).messages;
            var unknown := p.hash == "" || forall i :: 0 <= i < |s.messages| ==> s.messages[i].hash != p.hash;
            if Counts(p, s.selected) && unknown
            then && |after| == |s.messages| + 1 && after[..|s.messages|] == s.messages
                 && (var m := after[|s.messages|];
                     && m.hash == p.hash && m.body == p.body && m.id == p.id && m.repeats == 1
                     && m.observers == (if p.observer == "" then Some([]) else Some([p.observer]))
                     && m.fromWs && m.wsAt == now && m.origin == Live(s.selected, s.arrivals))
            else |after| == |s.messages|
  {
    var k := FindHash(s.messages, p.hash);
    if k < |s.messages| { assert s.messages[k].hash == p.hash; }
  }

  /** How often a message counts as seen that bears no number. */
  function Base(repeats: nat): (n: nat) { if repeats == 0 then 1 else repeats }

  /** How a message changes when `n` more packets with its hash arrive, the last at `now`. */
  ghost predicate SeenAgain(m: Msg, m': Msg, n: nat, now: nat) {
    && Same(m, m')
    && (if n == 0 then m' == m else m'.repeats == Base(m.repeats) + n && m'.fromWs && m'.wsAt == now)
  }

  lemma ReceiveSeen(s: State, p: Packet, now: nat, i: nat)
    requires i < |s.messages| && s.messages[i].hash != "" && FindHash(s.messages, s.messages[i].hash) == i
    ensures var s' := Receive(s, p, now);
            && i < |s'.messages| && FindHash(s'.messages, s.messages[i].hash) == i && s'.selected == s.selected
            && SeenAgain(s.messages[i], s'.messages[i],
                         if Counts(p, s.selected) && p.hash == s.messages[i].hash then 1 else 0, now)
  {
    var s', h := Receive(s, p, now), s.messages[i].hash;
    var k := FindHash(s.messages, p.hash);
    assert forall j :: 0 <= j < |s.messages| ==> s'.messages[j].hash == s.messages[j].hash;
    FindHashIs(s'.messages, h, i);
  }

  lemma {:induction false} FindHashIs(msgs: seq<Msg>, h: string, i: nat)
    requires i < |msgs| && msgs[i].hash == h && forall j :: 0 <= j < i ==> msgs[j].hash != h
    ensures FindHash(msgs, h) == i
  {
    var k := FindHash(msgs, h);
    assert k < |msgs|;
  }

  /** Packets of the batch for the open channel with the hash. */
  ghost function Sightings(packets: seq<Packet>, channel: string, h: string): (n: nat) {
    CountIf(packets, p => Counts(p, channel) && p.hash == h)
  }

  /** `repeats` counts the packets with the message's hash, whatever else is in the batch. */
  lemma {:induction false} BatchSeen(s: State, packets: seq<Packet>, now: nat, i: nat)
    requires i < |s.messages| && s.messages[i].hash != "" && FindHash(s.messages, s.messages[i].hash) == i
    ensures var s' := ReceiveAll(s, packets, now);
            && i < |s'.messages| && FindHash(s'.messages, s.messages[i].hash) == i && s'.selected == s.selected
            && SeenAgain(s.messages[i], s'.messages[i], Sightings(packets, s.selected, s.messages[i].hash), now)
  {
    if packets != [] {
      var front := packets[..|packets| - 1];
      BatchSeen(s, front, now, i);
      ReceiveSeen(ReceiveAll(s, front, now), packets[|packets| - 1], now, i);
    }
  }

  /** Events that leave the list alone but for live packets. */
  predicate Quiet(e: Event) { e.Batch? || e.BeginRefresh? || e.SetRegion? }

  ghost function TotalSightings(events: seq<Event>, channel: string, h: string): (n: nat) {
    if events == [] then 0
    else
      var e := events[|events| - 1];
      TotalSightings(events[..|events| - 1], channel, h) + if e.Batch? then Sightings(e.packets, channel, h) else 0
  }

  /** Over a whole run of live packets a message counts every packet with its hash for the open channel. */
  lemma {:induction false} RunSeen(s: State, events: seq<Event>, i: nat)
    requires i < |s.messages| && s.messages[i].hash != "" && FindHash(s.messages, s.messages[i].hash) == i
    requires forall k :: 0 <= k < |events| ==> Quiet(events[k])
    ensures var s', n := Run(s, events), TotalSightings(events, s.selected, s.messages[i].hash);
            && i < |s'.messages| && FindHash(s'.messages, s.messages[i].hash) == i && s'.selected == s.selected
            && Same(s.messages[i], s'.messages[i])
            && s'.messages[i].repeats == if n == 0 then s.messages[i].repeats else Base(s.messages[i].repeats) + n
  {
    if events != [] {
      var front, e := events[..|events| - 1], events[|events| - 1];
      RunSeen(s, front, i);
      if e.Batch? { BatchSeen(Run(s, front), e.packets, e.now, i); }
    }
  }

  /** The observers of a message that bears a list: those it had, in their places, then new ones; a packet
      with its hash adds the observer it names, and no name is added twice. */
  lemma ReceiveObserver(s: State, p: Packet, now: nat, i: nat)
    requires i < |s.messages| && s.messages[i].hash != "" && FindHash(s.messages, s.messages[i].hash) == i
    requires s.messages[i].observers.Some?
    ensures var old', new' := s.messages[i].observers.value, Receive(s, p, now).messages[i].observers;
            && new'.Some? && old' <= new'.value
            && (Distinct(old') ==> Distinct(new'.value))
            && (forall o :: o in new'.value
                            <==> || o in old'
                                 || (&& o != "" && o == p.observer
                                     && Counts(p, s.selected) && p.hash == s.messages[i].hash))
  {
    var k := FindHash(s.messages, p.hash);
    if Counts(p, s.selected) && p.hash == s.messages[i].hash { assert k == i; }
  }

  // ---- when a reply is stale ----

  predicate EndsRequest(e: Event) { e.Select? || e.Deselect? || e.BeginRefresh? }

  function LastRegion(events: seq<Event>, region: string): (r: string) {
    if events == [] then region
    else if events[|events| - 1].SetRegion? then events[|events| - 1].region
    else LastRegion(events[..|events| - 1], region)
  }

  /** Over live packets the request, the selection and the region stay. */
  lemma {:induction false} BatchKeeps(s: State, packets: seq<Packet>, now: nat)
    ensures var s' := ReceiveAll(s, packets, now);
            s'.selected == s.selected && s'.requestId == s.requestId && s'.region == s.region
  {
    if packets != [] { BatchKeeps(s, packets[..|packets| - 1], now); }
  }

  lemma {:induction false} RequestLives(s: State, req: Request, events: seq<Event>)
    requires !Stale(s, req) && req.hash != ""
    ensures var s' := Run(s, events);
            && s'.region == LastRegion(events, s.region) && req.id <= s'.requestId
            && if exists i :: 0 <= i < |events| && EndsRequest(events[i])
               then req.id < s'.requestId || s'.selected == ""
               else req.id == s'.requestId && s'.selected == req.hash
  {
    if events != [] {
      var front, e := events[..|events| - 1], events[|events| - 1];
      RequestLives(s, req, front);
      if e.Batch? { BatchKeeps(Run(s, front), e.packets, e.now); }
      if i :| 0 <= i < |front| && EndsRequest(front[i]) { assert EndsRequest(events[i]); }
      assert forall i :: 0 <= i < |front| ==> events[i] == front[i];
    }
  }

  /** Selections, and refreshes while a channel is open, are the requests of a run, each with its own number. */
  ghost function Requests(s: State, events: seq<Event>): (n: nat) {
    if events == [] then 0
    else
      var front, e := events[..|events| - 1], events[|events| - 1];
      Requests(s, front) + if e.Select? || (e.BeginRefresh? && Run(s, front).selected != "") then 1 else 0
  }

  lemma {:induction false} RequestsCounted(s: State, events: seq<Event>)
    ensures Run(s, events).requestId == s.requestId + Requests(s, events)
  {
    if events != [] {
      var front, e := events[..|events| - 1], events[|events| - 1];
      RequestsCounted(s, front);
      if e.Batch? { BatchKeeps(Run(s, front), e.packets, e.now); }
    }
  }

  /** A reply is stale exactly if a selection, a deselection or a refresh came after its request, or the
      region is another one by now. */
  lemma StaleIff(s: State, req: Request, events: seq<Event>)
    requires !Stale(s, req) && req.hash != ""
    ensures Stale(Run(s, events), req)
            <==> (exists i :: 0 <= i < |events| && EndsRequest(events[i])) || LastRegion(events, s.region) != req.region
  {
    RequestLives(s, req, events);
  }

  // ---- the refresh that changes nothing ----

  /** After a refresh that is not stale and not an emptied region, the REST result is what the list
      starts with, except exactly when the list is another one of the same length and the same last id. */
  lemma RefreshShowsRestIff(s: State, req: Request, rest: seq<Msg>, now: nat)
    requires !Stale(s, req)
    ensures var msgs, n := Next(s, RefreshReply(req, rest, false, now)).messages, |rest|;
            rest <= msgs
            <==> !(|s.messages| == n && (n == 0 || s.messages[n - 1].id == rest[n - 1].id) && s.messages != rest)
  {
  }

  /** A reachable case: a message is observed again over the WebSocket, and the refresh, which brings it
      under the same id with whatever the server has added since, changes nothing. */
  lemma RefreshIgnored(a: string, m: Msg, m': Msg, p: Packet, t: nat)
    requires a != "" && m.hash != "" && m.origin == Rest(a) && m'.id == m.id && m' != Observe(m, p.observer, t)
    requires p.accepted && p.channel == a && p.hash == m.hash
    ensures var first, second := Request(1, a, ""), Request(2, a, "");
            var reply, refreshed := Reply(first, [m], t), RefreshReply(second, [m'], false, t);
            var events := [Select(a), reply, Batch([p], t), BeginRefresh, refreshed];
            var s := Run(State("", [], "", 0, 0), events);
            !Stale(s, second) && s.messages == [Observe(m, p.observer, t)] && !([m'] <= s.messages)
  {
    var start, first, second := State("", [], "", 0, 0), Request(1, a, ""), Request(2, a, "");
    var e1, e2, e3, e4, e5 :=
      Select(a), Reply(first, [m], t), Batch([p], t), BeginRefresh, RefreshReply(second, [m'], false, t);
    RunStep(start, [], e1);
    RunStep(start, [e1], e2);
    assert [e1] + [e2] == [e1, e2];
    RunStep(start, [e1, e2], e3);
    assert [e1, e2] + [e3] == [e1, e2, e3];
    RunStep(start, [e1, e2, e3], e4);
    assert [e1, e2, e3] + [e4] == [e1, e2, e3, e4];
    RunStep(start, [e1, e2, e3, e4], e5);
    assert [e1, e2, e3, e4] + [e5] == [e1, e2, e3, e4, e5];
    assert [] + [e1] == [e1];
    assert Merge([], [m], t) == [m];
    var s2 := State(a, [m], "", 1, 0);
    assert Run(start, [e1, e2]) == s2;
    ObservedAgain(s2, p, t, m);
  }

  lemma ObservedAgain(s: State, p: Packet, now: nat, m: Msg)
    requires s.messages == [m] && p.accepted && p.channel != "" && p.channel == s.selected && p.hash == m.hash != ""
    ensures ReceiveAll(s, [p], now) == s.(messages := [Observe(m, p.observer, now)])
  {
    assert [p][..0] == [];
    assert ReceiveAll(s, [], now) == s;
    assert FindHash(s.messages, p.hash) == 0;
    assert Receive(s, p, now).messages == [Observe(m, p.observer, now)];
  }
}
