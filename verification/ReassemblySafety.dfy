/** What every run of the reassembler keeps: a sound event log, bounded windows, no frame reopened,
    and every opened frame accounted for. */
module ReassemblySafety {
  import opened Base
  import opened Reassembly

  datatype Arrival = Arrival(t: int, frag: Fragment)

  /** The state after a whole trace of fragments. */
  function Run(trace: seq<Arrival>): State {
    if trace == [] then INIT
    else
      var n := |trace| - 1;
      AfterPush(Run(trace[..n]), trace[n].t, trace[n].frag)
  }

  // ---------------------------------------------------------------- the event log

  /** The newest frame delivered in a log. */
  function LastDelivered(ev: seq<Event>): Option<u32> {
    if ev == [] then None
    else
      var e := ev[|ev| - 1];
      if e.Deliver? then Some(e.frameSeq) else LastDelivered(ev[..|ev| - 1])
  }

  /** The time of the newest IDR request in a log. */
  function LastRequest(ev: seq<Event>): Option<int> {
    if ev == [] then None
    else
      var e := ev[|ev| - 1];
      if e.IdrRequest? then Some(e.t) else LastRequest(ev[..|ev| - 1])
  }

  /** Whether e is an event the protocol allows right after the log ev. */
  predicate MayFollow(ev: seq<Event>, e: Event) {
    match e
    case Deliver(_, q, key) =>
      (match LastDelivered(ev)
       case None => key
       case Some(p) => p < q && (key || q == p + 1))
    case IdrRequest(t, good) =>
      && good == LastGood(LastDelivered(ev))
      && (LastRequest(ev).Some? ==> t - LastRequest(ev).value >= 250)
  }

  predicate LogOk(ev: seq<Event>) {
    ev == [] || (LogOk(ev[..|ev| - 1]) && MayFollow(ev[..|ev| - 1], ev[|ev| - 1]))
  }

  /** Each entry still misses a fragment. A need of zero, which no decoded datagram carries, never completes. */
  predicate EntryOk(e: Incomplete) {
    |e.have| >= 1 && (e.need >= 1 ==> |e.have| < e.need)
  }

  /** At most two frames are in flight, all newer than the newest complete one. */
  predicate WindowOk(newest: int, window: map<u32, Incomplete>) {
    && |window| <= 2
    && newest >= -1
    && (forall k :: k in window ==> newest < k && EntryOk(window[k]))
  }

  /** The log is sound and the reassembler's summary of it is exact. */
  predicate LogInv(s: State) {
    && (s.lastDecoded.Some? ==> s.lastDecoded.value <= s.newestComplete)
    && s.lastDecoded == LastDelivered(s.events)
    && s.idrLast == LastRequest(s.events)
    && LogOk(s.events)
  }

  predicate Inv(s: State) {
    WindowOk(s.newestComplete, s.incomplete) && LogInv(s)
  }

  lemma {:induction false} SnocOk(ev: seq<Event>, e: Event)
    requires LogOk(ev) && MayFollow(ev, e)
    ensures LogOk(ev + [e])
    ensures LastDelivered(ev + [e]) == if e.Deliver? then Some(e.frameSeq) else LastDelivered(ev)
    ensures LastRequest(ev + [e]) == if e.IdrRequest? then Some(e.t) else LastRequest(ev)
  {
    assert (ev + [e])[..|ev|] == ev;
  }

  lemma {:induction false} GateLog(s: State, t: int, q: u32, key: bool)
    requires LogInv(s) && q <= s.newestComplete
    requires s.lastDecoded.Some? ==> s.lastDecoded.value < q
    ensures LogInv(Gate(s, t, q, key))
  {
    if key || s.lastDecoded == Some(q - 1) {
      SnocOk(s.events, Deliver(t, q, key));
    } else if !(s.idrLast.Some? && t - s.idrLast.value < 250) {
      SnocOk(s.events, IdrRequest(t, LastGood(s.lastDecoded)));
    }
  }

  lemma {:induction false} InsertLog(s: State, t: int, f: Fragment)
    requires f.frameSeq in s.incomplete && s.newestComplete < f.frameSeq
    requires LogInv(s)
    ensures LogInv(Insert(s, t, f))
  {
    var q := f.frameSeq;
    var e := s.incomplete[q];
    var s1 := s.(incomplete := s.incomplete[q := e.(have := e.have + {f.fragIndex})]);
    GateLog(Retire(s1, q), t, q, e.keyframe);
  }

  lemma {:induction false} SubsetSize<T>(a: set<T>, b: set<T>)
    requires a <= b
    ensures |a| <= |b|
  {
    assert b == a + (b - a);
  }

  /** The window in which a fragment is recorded: as `WindowOk`, but its own frame may be newly opened. */
  predicate AdmittedOk(s: State, q: u32) {
    && q in s.incomplete && s.newestComplete < q
    && |s.incomplete| <= 2 && s.newestComplete >= -1
    && (forall k :: k in s.incomplete ==> s.newestComplete < k)
    && (forall k :: k in s.incomplete && k != q ==> EntryOk(s.incomplete[k]))
    && (EntryOk(s.incomplete[q]) || s.incomplete[q].have == {})
  }

  lemma {:induction false} RecordWindow(s: State, q: u32, i: u16)
    requires AdmittedOk(s, q)
    ensures var e := s.incomplete[q];
            var have := e.have + {i};
            var w := s.incomplete[q := e.(have := have)];
            && |w| <= 2 && w.Keys == s.incomplete.Keys
            && (|have| != e.need ==> WindowOk(s.newestComplete, w))
  {
    var e := s.incomplete[q];
    var have := e.have + {i};
    assert |have| == |e.have| || |have| == |e.have| + 1 by {
      assert i in e.have ==> have == e.have;
    }
    var w := s.incomplete[q := e.(have := have)];
    assert w.Keys == s.incomplete.Keys;
    assert |w| == |w.Keys| && |s.incomplete| == |s.incomplete.Keys|;
    if |have| != e.need {
      assert EntryOk(w[q]);
    }
  }

  lemma {:induction false} RetireWindow(s: State, q: u32)
    requires q in s.incomplete && s.newestComplete < q && s.newestComplete >= -1 && |s.incomplete| <= 2
    requires forall k :: k in s.incomplete && k != q ==> EntryOk(s.incomplete[k])
    ensures WindowOk(Retire(s, q).newestComplete, Retire(s, q).incomplete)
  {
    var r := Retire(s, q);
    assert |r.incomplete| == |r.incomplete.Keys| && |s.incomplete| == |s.incomplete.Keys|;
    SubsetSize(r.incomplete.Keys, s.incomplete.Keys);
  }

  /** Recording keeps the window unless it completes the frame, which retires it. */
  lemma {:induction false} InsertIncomplete(s: State, t: int, f: Fragment)
    requires f.frameSeq in s.incomplete
    ensures var e := s.incomplete[f.frameSeq];
            var have := e.have + {f.fragIndex};
            var s1 := s.(incomplete := s.incomplete[f.frameSeq := e.(have := have)]);
            var r := if |have| == e.need then Retire(s1, f.frameSeq) else s1;
            Insert(s, t, f).incomplete == r.incomplete && Insert(s, t, f).newestComplete == r.newestComplete
  {
  }

  lemma {:induction false} InsertWindow(s: State, t: int, f: Fragment)
    requires AdmittedOk(s, f.frameSeq)
    ensures WindowOk(Insert(s, t, f).newestComplete, Insert(s, t, f).incomplete)
  {
    var q := f.frameSeq;
    var e := s.incomplete[q];
    var have := e.have + {f.fragIndex};
    var s1 := s.(incomplete := s.incomplete[q := e.(have := have)]);
    InsertIncomplete(s, t, f);
    RecordWindow(s, q, f.fragIndex);
    if |have| == e.need {
      RetireWindow(s1, q);
    }
  }

  // ---------------------------------------------------------------- the window

  /** A frame the reassembler will never hold again: completed, overtaken, evicted or rejected. */
  predicate Dead(newest: int, held: set<u32>, q: u32) {
    q !in held && (q <= newest || (|held| >= 2 && forall k :: k in held ==> q < k))
  }

  /** The frames held while live frame q is recorded: an arrival in a full window evicts the oldest. */
  function Holding(held: set<u32>, q: u32): set<u32> {
    if q in held || |held| < 2 then held + {q} else held - {MinOf(held)} + {q}
  }

  /** Recording a fragment keeps the frames held, or completes its frame and drops all not newer. */
  predicate Settles(newest: int, held: set<u32>, q: u32, newest': int, held': set<u32>) {
    || (newest' == newest && held' == held)
    || (newest' == q && held' == set k | k in held && q < k)
  }

  lemma {:induction false} HoldingBounds(newest: int, held: set<u32>, q: u32)
    requires |held| <= 2 && !Dead(newest, held, q)
    ensures |Holding(held, q)| == if q in held || |held| == 2 then |held| else |held| + 1
    ensures forall k :: k in held && k !in Holding(held, q) ==>
              |held| == 2 && forall j :: j in Holding(held, q) ==> k < j
  {
    if q in held {
      assert held + {q} == held;
    } else if |held| >= 2 {
      assert q > newest ==> MinOf(held) < q;
    }
  }

  /** Frames that leave the window, and frames already dead, stay dead. */
  lemma {:induction false} DeadSettles(newest: int, held: set<u32>, p: u32, newest': int, held': set<u32>, q: u32)
    requires |held| <= 2 && newest < p && !Dead(newest, held, p)
    requires Settles(newest, Holding(held, p), p, newest', held')
    requires q in held || Dead(newest, held, q)
    ensures q in held' || Dead(newest', held', q)
    ensures Dead(newest, held, q) ==> Dead(newest', held', q)
  {
    HoldingBounds(newest, held, p);
    var h := Holding(held, p);
    if q in h {
      assert q in held;
    } else if q > newest {
      assert |h| >= 2 && forall j :: j in h ==> q < j;
    }
  }

  predicate DeadIn(s: State, q: u32) {
    Dead(s.newestComplete, s.incomplete.Keys, q)
  }

  /** The state in which a live fragment is recorded. */
  function Admit(s: State, f: Fragment): State {
    if f.frameSeq in s.incomplete then s
    else if |s.incomplete| < 2 then Open(s, f)
    else Open(Evict(s, MinOf(s.incomplete.Keys)), f)
  }

  /** A dead frame's fragment only counts as stale; any other is admitted and recorded. */
  lemma {:induction false} AdmitOrStale(s: State, t: int, f: Fragment)
    requires WindowOk(s.newestComplete, s.incomplete)
    ensures DeadIn(s, f.frameSeq) ==> AfterPush(s, t, f) == Stale(s)
    ensures !DeadIn(s, f.frameSeq) ==>
              s.newestComplete < f.frameSeq && f.frameSeq in Admit(s, f).incomplete
              && AfterPush(s, t, f) == Insert(Admit(s, f), t, f)
  {
    var q, held := f.frameSeq, s.incomplete.Keys;
    assert |held| == |s.incomplete|;
    if q !in held && |held| >= 2 && q > s.newestComplete {
      assert Dead(s.newestComplete, held, q) <==> q < MinOf(held);
    }
  }

  lemma {:induction false} AdmitHolds(s: State, f: Fragment)
    ensures Admit(s, f).incomplete.Keys == Holding(s.incomplete.Keys, f.frameSeq)
    ensures Admit(s, f).newestComplete == s.newestComplete
  {
    assert |s.incomplete.Keys| == |s.incomplete|;
    if f.frameSeq in s.incomplete {
      assert s.incomplete.Keys + {f.frameSeq} == s.incomplete.Keys;
    }
  }

  lemma {:induction false} AdmitOk(s: State, f: Fragment)
    requires WindowOk(s.newestComplete, s.incomplete) && !DeadIn(s, f.frameSeq) && s.newestComplete < f.frameSeq
    ensures AdmittedOk(Admit(s, f), f.frameSeq)
  {
    AdmitHolds(s, f);
    HoldingBounds(s.newestComplete, s.incomplete.Keys, f.frameSeq);
    var o := Admit(s, f);
    assert |o.incomplete| == |o.incomplete.Keys| && |s.incomplete| == |s.incomplete.Keys|;
  }

  lemma {:induction false} PushInv(s: State, t: int, f: Fragment)
    requires Inv(s)
    ensures Inv(AfterPush(s, t, f))
  {
    AdmitOrStale(s, t, f);
    if !DeadIn(s, f.frameSeq) {
      AdmitOk(s, f);
      InsertWindow(Admit(s, f), t, f);
      InsertLog(Admit(s, f), t, f);
    }
  }

  lemma {:induction false} RunInv(trace: seq<Arrival>)
    ensures Inv(Run(trace))
  {
    if trace != [] {
      var n := |trace| - 1;
      RunInv(trace[..n]);
      PushInv(Run(trace[..n]), trace[n].t, trace[n].frag);
    }
  }

  lemma {:induction false} LogPrefix(ev: seq<Event>, j: nat)
    requires LogOk(ev) && j < |ev|
    ensures LogOk(ev[..j]) && MayFollow(ev[..j], ev[j])
  {
    if j < |ev| - 1 {
      LogPrefix(ev[..|ev| - 1], j);
      assert ev[..|ev| - 1][..j] == ev[..j];
    }
  }

  lemma {:induction false} DeliveredBelow(ev: seq<Event>, i: nat)
    requires LogOk(ev) && i < |ev|
    ensures ev[i].Deliver? ==> LastDelivered(ev).Some? && ev[i].frameSeq <= LastDelivered(ev).value
    ensures ev[i].IdrRequest? ==> LastRequest(ev).Some? && ev[i].t <= LastRequest(ev).value
  {
    if i < |ev| - 1 {
      DeliveredBelow(ev[..|ev| - 1], i);
    }
  }

  /** What the log says of its entry j, in terms of the entries before it. */
  lemma {:induction false} LogEntry(ev: seq<Event>, i: nat, j: nat)
    requires LogOk(ev) && i < j < |ev|
    ensures ev[i].Deliver? && ev[j].Deliver? ==> ev[i].frameSeq < ev[j].frameSeq
    ensures ev[i].IdrRequest? && ev[j].IdrRequest? ==> ev[j].t - ev[i].t >= 250
  {
    LogPrefix(ev, j);
    DeliveredBelow(ev[..j], i);
  }

  lemma {:induction false} LogOrder(ev: seq<Event>)
    requires LogOk(ev)
    ensures forall i, j :: 0 <= i < j < |ev| && ev[i].Deliver? && ev[j].Deliver? ==> ev[i].frameSeq < ev[j].frameSeq
    ensures forall i, j :: 0 <= i < j < |ev| && ev[i].IdrRequest? && ev[j].IdrRequest? ==>
              ev[j].t - ev[i].t >= 250
  {
    forall i, j | 0 <= i < j < |ev|
      ensures ev[i].Deliver? && ev[j].Deliver? ==> ev[i].frameSeq < ev[j].frameSeq
      ensures ev[i].IdrRequest? && ev[j].IdrRequest? ==> ev[j].t - ev[i].t >= 250
    {
      LogEntry(ev, i, j);
    }
  }

  lemma {:induction false} LogShape(ev: seq<Event>)
    requires LogOk(ev)
    ensures forall j :: 0 <= j < |ev| && ev[j].Deliver? && !ev[j].keyframe ==>
              LastDelivered(ev[..j]) == Some(ev[j].frameSeq - 1)
    ensures forall j :: 0 <= j < |ev| && ev[j].IdrRequest? ==> ev[j].lastGood == LastGood(LastDelivered(ev[..j]))
  {
    forall j | 0 <= j < |ev| ensures MayFollow(ev[..j], ev[j]) {
      LogPrefix(ev, j);
    }
  }

  /** Deliveries ascend, each that is no keyframe directly follows its predecessor (so the first is a keyframe),
      and IDR requests name the last delivery and keep their distance. */
  ghost predicate LogSound(ev: seq<Event>) {
    && (forall i, j :: 0 <= i < j < |ev| && ev[i].Deliver? && ev[j].Deliver? ==> ev[i].frameSeq < ev[j].frameSeq)
    && (forall j :: 0 <= j < |ev| && ev[j].Deliver? && !ev[j].keyframe ==>
          LastDelivered(ev[..j]) == Some(ev[j].frameSeq - 1))
    && (forall j :: 0 <= j < |ev| && ev[j].IdrRequest? ==> ev[j].lastGood == LastGood(LastDelivered(ev[..j])))
    && (forall i, j :: 0 <= i < j < |ev| && ev[i].IdrRequest? && ev[j].IdrRequest? ==>
          ev[j].t - ev[i].t >= 250)
  }

  lemma {:induction false} LogOkIsSound(ev: seq<Event>)
    requires LogOk(ev)
    ensures LogSound(ev)
  {
    LogShape(ev);
    LogOrder(ev);
  }

  /** Every run's event log is sound, for any arrival times, even those of a clock that goes backwards. */
  lemma {:induction false} EventLog(trace: seq<Arrival>)
    ensures LogSound(Run(trace).events)
  {
    RunInv(trace);
    LogOkIsSound(Run(trace).events);
  }

  // ---------------------------------------------------------------- no frame is reopened

  lemma {:induction false} InsertSettles(s: State, t: int, f: Fragment)
    requires f.frameSeq in s.incomplete && s.newestComplete < f.frameSeq
    ensures var s' := Insert(s, t, f);
            Settles(s.newestComplete, s.incomplete.Keys, f.frameSeq, s'.newestComplete, s'.incomplete.Keys)
  {
    var q := f.frameSeq;
    var e := s.incomplete[q];
    var s1 := s.(incomplete := s.incomplete[q := e.(have := e.have + {f.fragIndex})]);
    assert s1.incomplete.Keys == s.incomplete.Keys;
    var r := Retire(s1, q);
    assert r.incomplete.Keys == set k | k in s.incomplete && q < k;
    assert Gate(r, t, q, e.keyframe).incomplete == r.incomplete;
  }

  /** How a push moves the window. */
  lemma {:induction false} PushSettles(s: State, t: int, f: Fragment)
    requires WindowOk(s.newestComplete, s.incomplete)
    ensures var s' := AfterPush(s, t, f);
            if DeadIn(s, f.frameSeq) then s' == Stale(s)
            else s.newestComplete < f.frameSeq
                 && Settles(s.newestComplete, Holding(s.incomplete.Keys, f.frameSeq), f.frameSeq,
                            s'.newestComplete, s'.incomplete.Keys)
  {
    AdmitOrStale(s, t, f);
    if !DeadIn(s, f.frameSeq) {
      AdmitHolds(s, f);
      InsertSettles(Admit(s, f), t, f);
    }
  }

  lemma {:induction false} DeadForever(s: State, t: int, f: Fragment, q: u32)
    requires WindowOk(s.newestComplete, s.incomplete)
    requires q in s.incomplete || DeadIn(s, q)
    ensures q in AfterPush(s, t, f).incomplete || DeadIn(AfterPush(s, t, f), q)
    ensures DeadIn(s, q) ==> DeadIn(AfterPush(s, t, f), q)
  {
    PushSettles(s, t, f);
    if !DeadIn(s, f.frameSeq) {
      var s' := AfterPush(s, t, f);
      assert |s.incomplete| == |s.incomplete.Keys|;
      DeadSettles(s.newestComplete, s.incomplete.Keys, f.frameSeq, s'.newestComplete, s'.incomplete.Keys, q);
    }
  }

  /** Whatever the fragment, its frame is afterwards in the window or dead. */
  lemma {:induction false} PushedOrDead(s: State, t: int, f: Fragment)
    requires WindowOk(s.newestComplete, s.incomplete)
    ensures var s' := AfterPush(s, t, f); f.frameSeq in s'.incomplete || DeadIn(s', f.frameSeq)
  {
    PushSettles(s, t, f);
  }

  /** Whether this fragment opens a new frame. */
  predicate Opens(s: State, f: Fragment) {
    f.frameSeq !in s.incomplete && !DeadIn(s, f.frameSeq)
  }

  /** The frames a trace opens, in order. */
  function Opened(trace: seq<Arrival>): seq<u32> {
    if trace == [] then []
    else
      var n := |trace| - 1;
      Opened(trace[..n]) + (if Opens(Run(trace[..n]), trace[n].frag) then [trace[n].frag.frameSeq] else [])
  }

  predicate HeldOrDead(s: State, q: u32) {
    q in s.incomplete || DeadIn(s, q)
  }

  lemma {:induction false} OpenedStep(s: State, t: int, f: Fragment, before: seq<u32>)
    requires WindowOk(s.newestComplete, s.incomplete)
    requires forall i :: 0 <= i < |before| ==> HeldOrDead(s, before[i])
    ensures forall i :: 0 <= i < |before| ==> HeldOrDead(AfterPush(s, t, f), before[i])
    ensures HeldOrDead(AfterPush(s, t, f), f.frameSeq)
    ensures Opens(s, f) ==> f.frameSeq !in before
  {
    forall i | 0 <= i < |before| ensures HeldOrDead(AfterPush(s, t, f), before[i]) {
      DeadForever(s, t, f, before[i]);
    }
    PushedOrDead(s, t, f);
  }

  /** Each frame is opened at most once, and an opened frame is held or dead ever after. */
  lemma {:induction false} OpenedOnce(trace: seq<Arrival>)
    ensures forall i, j :: 0 <= i < j < |Opened(trace)| ==> Opened(trace)[i] != Opened(trace)[j]
    ensures forall i :: 0 <= i < |Opened(trace)| ==> HeldOrDead(Run(trace), Opened(trace)[i])
  {
    if trace != [] {
      var n := |trace| - 1;
      OpenedOnce(trace[..n]);
      RunInv(trace[..n]);
      OpenedStep(Run(trace[..n]), trace[n].t, trace[n].frag, Opened(trace[..n]));
    }
  }

  // ---------------------------------------------------------------- conservation

  function Deliveries(ev: seq<Event>): nat {
    if ev == [] then 0
    else Deliveries(ev[..|ev| - 1]) + (if ev[|ev| - 1].Deliver? then 1 else 0)
  }

  /** Frames delivered, discarded for a gap, dropped incomplete, or still in the window. */
  function Accounted(s: State): nat {
    Deliveries(s.events) + s.counters.discardedGap + s.counters.droppedIncomplete + |s.incomplete|
  }

  lemma {:induction false} GateAccounts(s: State, t: int, q: u32, key: bool)
    ensures Accounted(Gate(s, t, q, key)) == Accounted(s) + 1
  {
    assert forall e :: (s.events + [e])[..|s.events|] == s.events;
  }

  lemma {:induction false} InsertAccounts(s: State, t: int, f: Fragment)
    requires f.frameSeq in s.incomplete
    ensures Accounted(Insert(s, t, f)) == Accounted(s)
  {
    var q := f.frameSeq;
    var e := s.incomplete[q];
    var have := e.have + {f.fragIndex};
    var s1 := s.(incomplete := s.incomplete[q := e.(have := have)]);
    assert s1.incomplete.Keys == s.incomplete.Keys;
    assert |s1.incomplete| == |s1.incomplete.Keys| && |s.incomplete| == |s.incomplete.Keys|;
    if |have| == e.need {
      var dead := Overtaken(s1, q);
      var r := Retire(s1, q);
      assert r.incomplete.Keys == s1.incomplete.Keys - ({q} + dead);
      assert |r.incomplete.Keys| == |s1.incomplete.Keys| - |{q} + dead|;
      GateAccounts(r, t, q, e.keyframe);
    }
  }

  lemma {:induction false} AdmitAccounts(s: State, f: Fragment)
    requires |s.incomplete| <= 2 && !DeadIn(s, f.frameSeq)
    ensures Accounted(Admit(s, f)) == Accounted(s) + if f.frameSeq in s.incomplete then 0 else 1
  {
    AdmitHolds(s, f);
    HoldingBounds(s.newestComplete, s.incomplete.Keys, f.frameSeq);
    var o := Admit(s, f);
    assert |o.incomplete| == |o.incomplete.Keys| && |s.incomplete| == |s.incomplete.Keys|;
  }

  lemma {:induction false} PushAccounts(s: State, t: int, f: Fragment)
    requires WindowOk(s.newestComplete, s.incomplete)
    ensures Accounted(AfterPush(s, t, f)) == Accounted(s) + if Opens(s, f) then 1 else 0
  {
    AdmitOrStale(s, t, f);
    if !DeadIn(s, f.frameSeq) {
      AdmitAccounts(s, f);
      InsertAccounts(Admit(s, f), t, f);
    }
  }

  /** Conservation: every opened frame is delivered, discarded, dropped or in flight, and never two of these.
      At most two frames are in flight, and each of those still misses a fragment. */
  lemma {:induction false} Conservation(trace: seq<Arrival>)
    ensures var s := Run(trace);
            && |Opened(trace)| ==
               Deliveries(s.events) + s.counters.discardedGap + s.counters.droppedIncomplete + |s.incomplete|
            && |s.incomplete| <= 2
            && (forall k :: k in s.incomplete ==> s.newestComplete < k && EntryOk(s.incomplete[k]))
  {
    RunInv(trace);
    if trace != [] {
      var n := |trace| - 1;
      Conservation(trace[..n]);
      RunInv(trace[..n]);
      PushAccounts(Run(trace[..n]), trace[n].t, trace[n].frag);
    }
  }

  lemma {:induction false} InsertAnswers(s: State, t: int, f: Fragment)
    requires f.frameSeq in s.incomplete
    requires Insert(s, t, f).counters.discardedGap > s.counters.discardedGap
    ensures var r := Insert(s, t, f).idrLast; r.Some? && t - r.value < 250
  {
  }

  /** Recovery is never silent: right after a gap discard the newest request is less than 250 ms old. */
  lemma {:induction false} GapAnswered(s: State, t: int, f: Fragment)
    requires Inv(s)
    requires AfterPush(s, t, f).counters.discardedGap > s.counters.discardedGap
    ensures var r := LastRequest(AfterPush(s, t, f).events); r.Some? && t - r.value < 250
  {
    PushInv(s, t, f);
    AdmitOrStale(s, t, f);
    InsertAnswers(Admit(s, f), t, f);
  }

  // ---------------------------------------------------------------- one push, as a receiver sees it

  /** The entry of f's frame once f is recorded. */
  function Recorded(s: State, f: Fragment): Incomplete {
    if f.frameSeq in s.incomplete then
      var e := s.incomplete[f.frameSeq]; e.(have := e.have + {f.fragIndex})
    else Incomplete(f.fragCount, {f.fragIndex}, f.keyframe)
  }

  /** The event a push appends, if any: what it says and when it happens. */
  predicate Reports(s: State, t: int, f: Fragment, s': State) {
    if s'.events == s.events then s'.lastDecoded == s.lastDecoded && s'.idrLast == s.idrLast
    else
      && |s'.events| == |s.events| + 1
      && s'.events == s.events + [s'.events[|s.events|]]
      && |Recorded(s, f).have| == Recorded(s, f).need
      && s'.newestComplete == f.frameSeq && s.newestComplete < f.frameSeq
      && match s'.events[|s.events|]
         case Deliver(t', q, key) =>
           && t' == t && q == f.frameSeq && key == Recorded(s, f).keyframe
           && (key || s.lastDecoded == Some(q - 1))
           && s'.lastDecoded == Some(q) && s'.idrLast == s.idrLast
         case IdrRequest(t', good) =>
           && t' == t && good == LastGood(s.lastDecoded)
           && s'.lastDecoded == s.lastDecoded && s'.idrLast == Some(t)
  }

  lemma {:induction false} InsertReports(s: State, o: State, t: int, f: Fragment)
    requires f.frameSeq in o.incomplete && s.newestComplete < f.frameSeq
    requires o == s.(incomplete := o.incomplete, counters := o.counters)
    requires o.incomplete[f.frameSeq].(have := o.incomplete[f.frameSeq].have + {f.fragIndex}) == Recorded(s, f)
    ensures Reports(s, t, f, Insert(o, t, f))
  {
  }

  lemma {:induction false} AdmitRecords(s: State, f: Fragment)
    requires f.frameSeq in Admit(s, f).incomplete
    ensures var e := Admit(s, f).incomplete[f.frameSeq];
            e.(have := e.have + {f.fragIndex}) == Recorded(s, f)
    ensures forall k :: k in Admit(s, f).incomplete && k != f.frameSeq ==>
              k in s.incomplete && Admit(s, f).incomplete[k] == s.incomplete[k]
    ensures Admit(s, f) == s.(incomplete := Admit(s, f).incomplete, counters := Admit(s, f).counters)
  {
    assert {} + {f.fragIndex} == {f.fragIndex};
  }

  lemma {:induction false} PushReports(s: State, t: int, f: Fragment)
    requires WindowOk(s.newestComplete, s.incomplete)
    ensures Reports(s, t, f, AfterPush(s, t, f))
  {
    AdmitOrStale(s, t, f);
    if !DeadIn(s, f.frameSeq) {
      AdmitRecords(s, f);
      InsertReports(s, Admit(s, f), t, f);
    }
  }

  lemma {:induction false} InsertEntries(o: State, t: int, f: Fragment)
    requires f.frameSeq in o.incomplete
    ensures var s' := Insert(o, t, f);
            forall k :: k in s'.incomplete ==>
              && k in o.incomplete
              && (k == f.frameSeq ==>
                    s'.incomplete[k] == o.incomplete[k].(have := o.incomplete[k].have + {f.fragIndex}))
              && (k != f.frameSeq ==> s'.incomplete[k] == o.incomplete[k])
  {
  }

  /** A push changes no entry but its own frame's. */
  lemma {:induction false} PushEntries(s: State, t: int, f: Fragment)
    requires WindowOk(s.newestComplete, s.incomplete)
    ensures var s' := AfterPush(s, t, f);
            forall k :: k in s'.incomplete ==>
              if k == f.frameSeq then s'.incomplete[k] == Recorded(s, f)
              else k in s.incomplete && s'.incomplete[k] == s.incomplete[k]
  {
    AdmitOrStale(s, t, f);
    if !DeadIn(s, f.frameSeq) {
      AdmitRecords(s, f);
      InsertEntries(Admit(s, f), t, f);
    }
  }
}
