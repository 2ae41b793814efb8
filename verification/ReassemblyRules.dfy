/** The receive model's three rules over whole runs: which fragments are stale, how each counter counts, and which
    completed frames are delivered. */
module ReassemblyRules {
  import opened Base
  import opened Reassembly
  import opened ReassemblySafety

  // ---------------------------------------------------------------- one push, exactly

  /** Frames newer than q that are held while q is recorded; all the others die when q completes. */
  function Newer(held: set<u32>, q: u32): set<u32> {
    set k | k in held && q < k
  }

  function Older(held: set<u32>, q: u32): set<u32> {
    set k | k in held && k < q
  }

  /** Whether recording a fragment of q costs the window its oldest frame. */
  predicate Evicts(held: set<u32>, q: u32) {
    q !in held && |held| == 2
  }

  function Count(b: bool): nat {
    if b then 1 else 0
  }

  /** The fragment leaves its frame incomplete: it is recorded, and nothing else happens but an eviction. */
  predicate Records(s: State, f: Fragment, s': State) {
    var held := s.incomplete.Keys;
    && s' == s.(incomplete := s'.incomplete, counters := s'.counters)
    && s'.incomplete.Keys == Holding(held, f.frameSeq)
    && s'.counters ==
       s.counters.(droppedIncomplete := s.counters.droppedIncomplete + Count(Evicts(held, f.frameSeq)))
  }

  /** The fragment completes its frame: older frames die, and a keyframe or a successor of the newest delivery is
      delivered; any other is discarded, with a request unless one was made less than 250 ms ago. */
  predicate Finishes(s: State, t: int, f: Fragment, s': State) {
    var q, key := f.frameSeq, Recorded(s, f).keyframe;
    var held := Holding(s.incomplete.Keys, q);
    && s'.newestComplete == q && s'.incomplete.Keys == Newer(held, q)
    && s'.counters.staleFragments == s.counters.staleFragments
    && s'.counters.droppedIncomplete ==
       s.counters.droppedIncomplete + Count(Evicts(s.incomplete.Keys, q)) + |Older(held, q)|
    && if key || (q > 0 && s.lastDecoded == Some(q - 1)) then
         && s'.events == s.events + [Deliver(t, q, key)] && s'.lastDecoded == Some(q)
         && s'.counters.discardedGap == s.counters.discardedGap && s'.idrLast == s.idrLast
       else
         && s'.lastDecoded == s.lastDecoded && s'.counters.discardedGap == s.counters.discardedGap + 1
         && if s.idrLast.Some? && t - s.idrLast.value < 250 then s'.events == s.events && s'.idrLast == s.idrLast
            else
              && s'.events == s.events + [IdrRequest(t, if s.lastDecoded.Some? then s.lastDecoded.value else 0)]
              && s'.idrLast == Some(t)
  }

  lemma {:induction false} AdmitCounts(s: State, f: Fragment)
    requires WindowOk(s.newestComplete, s.incomplete) && !DeadIn(s, f.frameSeq)
    ensures var o := Admit(s, f);
            && o == s.(incomplete := o.incomplete, counters := o.counters)
            && o.counters == s.counters.(droppedIncomplete :=
                 s.counters.droppedIncomplete + Count(Evicts(s.incomplete.Keys, f.frameSeq)))
  {
    assert |s.incomplete| == |s.incomplete.Keys|;
  }

  lemma {:induction false} InsertFinishes(s: State, o: State, t: int, f: Fragment, held: set<u32>)
    requires f.frameSeq in o.incomplete && s.newestComplete < f.frameSeq && held == o.incomplete.Keys
    requires forall k :: k in held ==> s.newestComplete < k
    requires o == s.(incomplete := o.incomplete, counters := o.counters)
    requires var e := o.incomplete[f.frameSeq].(have := o.incomplete[f.frameSeq].have + {f.fragIndex});
             e == Recorded(s, f) && |e.have| == e.need
    requires held == Holding(s.incomplete.Keys, f.frameSeq)
    requires o.counters == s.counters.(droppedIncomplete :=
               s.counters.droppedIncomplete + Count(Evicts(s.incomplete.Keys, f.frameSeq)))
    ensures Finishes(s, t, f, Insert(o, t, f))
  {
    var q, e := f.frameSeq, Recorded(s, f);
    var s1 := o.(incomplete := o.incomplete[q := e]);
    assert s1.incomplete.Keys == held;
    RetireSets(s1, q, held);
    GateFinishes(s, t, f, Retire(s1, q), held);
  }

  lemma {:induction false} RetireSets(s: State, q: u32, held: set<u32>)
    requires s.incomplete.Keys == held && s.newestComplete < q && forall k :: k in held ==> s.newestComplete < k
    ensures var r := Retire(s, q);
            && r == s.(newestComplete := q, incomplete := r.incomplete, counters := r.counters)
            && r.incomplete.Keys == Newer(held, q)
            && r.counters == s.counters.(droppedIncomplete := s.counters.droppedIncomplete + |Older(held, q)|)
  {
    assert Overtaken(s, q) == Older(held, q);
  }

  lemma {:induction false} GateFinishes(s: State, t: int, f: Fragment, r: State, held: set<u32>)
    requires held == Holding(s.incomplete.Keys, f.frameSeq) && r.newestComplete == f.frameSeq
    requires r == s.(newestComplete := r.newestComplete, incomplete := r.incomplete, counters := r.counters)
    requires r.incomplete.Keys == Newer(held, f.frameSeq)
    requires r.counters == s.counters.(droppedIncomplete :=
               s.counters.droppedIncomplete + Count(Evicts(s.incomplete.Keys, f.frameSeq)) + |Older(held, f.frameSeq)|)
    ensures Finishes(s, t, f, Gate(r, t, f.frameSeq, Recorded(s, f).keyframe))
  {
  }

  lemma {:induction false} InsertRecords(o: State, t: int, f: Fragment)
    requires f.frameSeq in o.incomplete
    requires var e := o.incomplete[f.frameSeq]; |e.have + {f.fragIndex}| != e.need
    ensures var o' := Insert(o, t, f);
            o' == o.(incomplete := o'.incomplete) && o'.incomplete.Keys == o.incomplete.Keys
  {
    assert o.incomplete.Keys + {f.frameSeq} == o.incomplete.Keys;
  }

  /** Every push, in every reachable state, does exactly one of three things. */
  lemma {:induction false} PushExactly(s: State, t: int, f: Fragment)
    requires Inv(s)
    ensures var s', e := AfterPush(s, t, f), Recorded(s, f);
            if DeadIn(s, f.frameSeq) then
              s' == s.(counters := s.counters.(staleFragments := s.counters.staleFragments + 1))
            else if |e.have| != e.need then Records(s, f, s')
            else Finishes(s, t, f, s')
  {
    AdmitOrStale(s, t, f);
    if !DeadIn(s, f.frameSeq) {
      var o := Admit(s, f);
      AdmitRecords(s, f);
      AdmitHolds(s, f);
      AdmitCounts(s, f);
      if |Recorded(s, f).have| != Recorded(s, f).need {
        InsertRecords(o, t, f);
      } else {
        InsertFinishes(s, o, t, f, o.incomplete.Keys);
      }
    }
  }

  // ---------------------------------------------------------------- over runs

  /** How many fragments of a trace arrive for a frame that is already dead. */
  function LateArrivals(trace: seq<Arrival>): nat {
    if trace == [] then 0
    else
      var front, last := trace[..|trace| - 1], trace[|trace| - 1];
      LateArrivals(front) + Count(DeadIn(Run(front), last.frag.frameSeq))
  }

  /** Over every run the stale fragments are exactly those whose frame was dead. */
  lemma {:induction false} StaleCounted(trace: seq<Arrival>)
    ensures Run(trace).counters.staleFragments == LateArrivals(trace)
  {
    if trace != [] {
      var front, last := trace[..|trace| - 1], trace[|trace| - 1];
      StaleCounted(front);
      RunInv(front);
      PushExactly(Run(front), last.t, last.frag);
    }
  }

  /** The frame began as a keyframe, or the newest delivery in the log is its predecessor. */
  predicate PassesGate(s: State, f: Fragment) {
    Recorded(s, f).keyframe || (f.frameSeq > 0 && LastDelivered(s.events) == Some(f.frameSeq - 1))
  }

  /** Over every run, a frame that completes is delivered if and only if its first fragment was marked as a keyframe or
      the newest delivery in the log is its predecessor; otherwise it is counted as a gap. So a keyframe always gets
      through, whatever was lost before it, and the frames after it follow. */
  lemma {:induction false} DeliveredIff(trace: seq<Arrival>, t: int, f: Fragment)
    ensures var s := Run(trace);
            var s' := AfterPush(s, t, f);
            var through := PassesGate(s, f);
            !DeadIn(s, f.frameSeq) && |Recorded(s, f).have| == Recorded(s, f).need ==>
              && (through <==> s'.events == s.events + [Deliver(t, f.frameSeq, Recorded(s, f).keyframe)])
              && (through <==> s'.counters.discardedGap == s.counters.discardedGap)
  {
    var s := Run(trace);
    RunInv(trace);
    PushExactly(s, t, f);
    if !DeadIn(s, f.frameSeq) && |Recorded(s, f).have| == Recorded(s, f).need {
      FinishDelivers(s, t, f, AfterPush(s, t, f));
    }
  }

  lemma {:induction false} FinishDelivers(s: State, t: int, f: Fragment, s': State)
    requires Finishes(s, t, f, s') && s.lastDecoded == LastDelivered(s.events)
    ensures var through := PassesGate(s, f);
            && (through <==> s'.events == s.events + [Deliver(t, f.frameSeq, Recorded(s, f).keyframe)])
            && (through <==> s'.counters.discardedGap == s.counters.discardedGap)
  {
    if |s'.events| == |s.events| + 1 {
      assert s'.events == s.events + [s'.events[|s.events|]];
    }
  }

  /** Two frames can be in flight at once: with at most one held, a new frame costs no other. */
  lemma {:induction false} RoomForTwo(s: State, t: int, f: Fragment)
    requires Inv(s) && |s.incomplete| <= 1 && s.newestComplete < f.frameSeq && f.fragCount > 1
    requires f.frameSeq !in s.incomplete
    ensures var s' := AfterPush(s, t, f);
            s'.incomplete.Keys == s.incomplete.Keys + {f.frameSeq} && s'.counters == s.counters
  {
    assert |s.incomplete.Keys| == |s.incomplete|;
    PushExactly(s, t, f);
  }
}
