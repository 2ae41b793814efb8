/** Fragment reassembly: the two-frame window, decode gating and the IDR request limit.
    `AfterPush` specifies one fragment's whole effect; class `Reassembler` is the stateful original. */
module Reassembly {
  import opened Base

  const WINDOW: nat := 2
  const IDR_INTERVAL_MS: int := 250

  datatype Fragment = Fragment(frameSeq: u32, fragIndex: u16, fragCount: u16, keyframe: bool)

  datatype Incomplete = Incomplete(need: u16, have: set<u16>, keyframe: bool)

  datatype Event =
    | Deliver(t: int, frameSeq: u32, keyframe: bool)
    | IdrRequest(t: int, lastGood: u32)

  datatype Counters = Counters(droppedIncomplete: nat, discardedGap: nat, staleFragments: nat)

  datatype State = State(
    newestComplete: int,
    lastDecoded: Option<u32>,
    incomplete: map<u32, Incomplete>,
    events: seq<Event>,
    counters: Counters,
    idrLast: Option<int>)

  const INIT: State := State(-1, None, map[], [], Counters(0, 0, 0), None)

  // ---------------------------------------------------------------- one fragment

  /** The oldest frame of a window. */
  function MinOf(keys: set<u32>): (k: u32)
    requires keys != {}
    ensures k in keys && forall j :: j in keys ==> k <= j
  {
    ghost var least := Least(keys);
    var k :| k in keys && forall j :: j in keys ==> k <= j;
    k
  }

  ghost function Least(keys: set<u32>): (k: u32)
    requires keys != {}
    ensures k in keys && forall j :: j in keys ==> k <= j
  {
    var x :| x in keys;
    if keys == {x} then x
    else
      var k := Least(keys - {x});
      assert forall j :: j in keys ==> j == x || j in keys - {x};
      if x < k then x else k
  }

  function AfterPush(s: State, t: int, f: Fragment): State {
    if f.frameSeq <= s.newestComplete then Stale(s)
    else if f.frameSeq in s.incomplete then Insert(s, t, f)
    else if |s.incomplete| < WINDOW then Insert(Open(s, f), t, f)
    else
      var oldest := MinOf(s.incomplete.Keys);
      if f.frameSeq > oldest then Insert(Open(Evict(s, oldest), f), t, f)
      else Stale(s)
  }

  function Stale(s: State): State {
    s.(counters := s.counters.(staleFragments := s.counters.staleFragments + 1))
  }

  function Evict(s: State, oldest: u32): State {
    s.(incomplete := s.incomplete - {oldest},
       counters := s.counters.(droppedIncomplete := s.counters.droppedIncomplete + 1))
  }

  function Open(s: State, f: Fragment): State {
    s.(incomplete := s.incomplete[f.frameSeq := Incomplete(f.fragCount, {}, f.keyframe)])
  }

  function Insert(s: State, t: int, f: Fragment): State
    requires f.frameSeq in s.incomplete
  {
    var e := s.incomplete[f.frameSeq];
    var have := e.have + {f.fragIndex};
    var s' := s.(incomplete := s.incomplete[f.frameSeq := e.(have := have)]);
    if |have| != e.need then s' else Gate(Retire(s', f.frameSeq), t, f.frameSeq, e.keyframe)
  }

  /** The incomplete frames a completion of `frameSeq` leaves behind. */
  function Overtaken(s: State, frameSeq: u32): set<u32> {
    set k | k in s.incomplete && k != frameSeq && k <= Max(s.newestComplete, frameSeq)
  }

  function Max(a: int, b: int): int {
    if a < b then b else a
  }

  /** Removes the completed frame and every incomplete frame it overtook. */
  function Retire(s: State, frameSeq: u32): State {
    var dead := Overtaken(s, frameSeq);
    s.(newestComplete := Max(s.newestComplete, frameSeq),
       incomplete := s.incomplete - {frameSeq} - dead,
       counters := s.counters.(droppedIncomplete := s.counters.droppedIncomplete + |dead|))
  }

  /** A completed frame reaches the decoder iff it is a keyframe or follows the last one that did. */
  function Gate(s: State, t: int, frameSeq: u32, keyframe: bool): State {
    if keyframe || s.lastDecoded == Some(frameSeq - 1) then
      s.(events := s.events + [Deliver(t, frameSeq, keyframe)], lastDecoded := Some(frameSeq))
    else
      MaybeIdr(s.(counters := s.counters.(discardedGap := s.counters.discardedGap + 1)), t)
  }

  function MaybeIdr(s: State, t: int): State {
    if s.idrLast.Some? && t - s.idrLast.value < IDR_INTERVAL_MS then s
    else s.(events := s.events + [IdrRequest(t, LastGood(s.lastDecoded))], idrLast := Some(t))
  }

  function LastGood(last: Option<u32>): u32 {
    if last.Some? then last.value else 0
  }

  // ---------------------------------------------------------------- the original, in place

  class Reassembler {
    var newestComplete: int
    var lastDecoded: Option<u32>
    var incomplete: map<u32, Incomplete>
    var events: seq<Event>
    var counters: Counters
    var idrLast: Option<int>

    ghost function Model(): State
      reads this
    {
      State(newestComplete, lastDecoded, incomplete, events, counters, idrLast)
    }

    constructor ()
      ensures Model() == INIT
    {
      newestComplete := -1;
      lastDecoded, incomplete, events := None, map[], [];
      counters, idrLast := Counters(0, 0, 0), None;
    }

    method Push(t: int, frag: Fragment)
      modifies this
      ensures Model() == AfterPush(old(Model()), t, frag)
    {
      var frameSeq := frag.frameSeq;
      if frameSeq <= newestComplete {
        counters := counters.(staleFragments := counters.staleFragments + 1);
        return;
      }
      if frameSeq !in incomplete {
        if |incomplete| >= WINDOW {
          var oldest := MinOf(incomplete.Keys);
          if frameSeq > oldest {
            incomplete := incomplete - {oldest};
            counters := counters.(droppedIncomplete := counters.droppedIncomplete + 1);
          } else {
            counters := counters.(staleFragments := counters.staleFragments + 1);
            return;
          }
        }
        incomplete := incomplete[frameSeq := Incomplete(frag.fragCount, {}, frag.keyframe)];
      }
      var entry := incomplete[frameSeq];
      entry := entry.(have := entry.have + {frag.fragIndex});
      incomplete := incomplete[frameSeq := entry];
      if |entry.have| != entry.need { return; }
      Complete(t, frameSeq, entry.keyframe);
    }

    method Complete(t: int, frameSeq: u32, keyframe: bool)
      requires frameSeq in incomplete
      modifies this
      ensures Model() == Gate(Retire(old(Model()), frameSeq), t, frameSeq, keyframe)
    {
      incomplete := incomplete - {frameSeq};
      newestComplete := Max(newestComplete, frameSeq);
      Cleanup();
      assert Model() == Retire(old(Model()), frameSeq) by {
        assert Overtaken(old(Model()), frameSeq) == set k | k in old(incomplete) - {frameSeq} && k <= newestComplete;
      }
      if keyframe {
        DeliverFrame(t, frameSeq, true);
      } else if lastDecoded == Some(frameSeq - 1) {
        DeliverFrame(t, frameSeq, false);
      } else {
        counters := counters.(discardedGap := counters.discardedGap + 1);
        RequestIdr(t);
      }
    }

    /** Erases, while iterating, every incomplete frame at or below the newest complete one. */
    method Cleanup()
      modifies this`incomplete, this`counters
      ensures incomplete == old(incomplete) - (set k | k in old(incomplete) && k <= newestComplete)
      ensures counters == old(counters).(droppedIncomplete :=
                old(counters).droppedIncomplete + |set k | k in old(incomplete) && k <= newestComplete|)
    {
      ghost var before := incomplete;
      ghost var erased: set<u32> := {};
      var todo := incomplete.Keys;
      while todo != {}
        invariant todo <= incomplete.Keys
        invariant erased == set k | k in before && k !in todo && k <= newestComplete
        invariant incomplete == before - erased
        invariant counters == old(counters).(droppedIncomplete := old(counters).droppedIncomplete + |erased|)
        decreases todo
      {
        var k :| k in todo;
        todo := todo - {k};
        if k <= newestComplete {
          incomplete := incomplete - {k};
          counters := counters.(droppedIncomplete := counters.droppedIncomplete + 1);
          assert k !in erased;
          erased := erased + {k};
        }
      }
      assert erased == set k | k in before && k <= newestComplete;
    }

    method DeliverFrame(t: int, frameSeq: u32, keyframe: bool)
      modifies this`events, this`lastDecoded
      ensures events == old(events) + [Deliver(t, frameSeq, keyframe)]
      ensures lastDecoded == Some(frameSeq)
    {
      events := events + [Deliver(t, frameSeq, keyframe)];
      lastDecoded := Some(frameSeq);
    }

    method RequestIdr(t: int)
      modifies this`events, this`idrLast
      ensures Model() == MaybeIdr(old(Model()), t)
    {
      if idrLast.Some? && t - idrLast.value < IDR_INTERVAL_MS { return; }
      events := events + [IdrRequest(t, LastGood(lastDecoded))];
      idrLast := Some(t);
    }
  }
}
