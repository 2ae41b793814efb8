/** The clock filter: a sliding window of samples, of which the most recent with the least round trip wins. */
module ClockSync {
  const WINDOW: nat := 16

  datatype Estimate = Estimate(rtt: int, offset: int)

  /** One ping and its answer: t0 and t3 on the client's clock, t1 and t2 on the host's. */
  datatype Sample = Sample(t0: int, t1: int, t2: int, t3: int)

  /** Half of n, rounded down. */
  function FloorHalf(n: int): int {
    n / 2
  }

  function EstimateOf(s: Sample): Estimate {
    Estimate((s.t3 - s.t0) - (s.t2 - s.t1), FloorHalf((s.t1 - s.t0) + (s.t2 - s.t3)))
  }

  function Estimates(history: seq<Sample>): (r: seq<Estimate>)
    ensures |r| == |history| && forall i :: 0 <= i < |r| ==> r[i] == EstimateOf(history[i])
  {
    if history == [] then [] else Estimates(history[..|history| - 1]) + [EstimateOf(history[|history| - 1])]
  }

  /** The newest n elements. */
  function Last<T>(s: seq<T>, n: nat): seq<T> {
    if |s| <= n then s else s[|s| - n..]
  }

  /** Sample i has the least round trip of the window, and every later one a greater. */
  predicate Newest(w: seq<Estimate>, i: nat) {
    && i < |w|
    && (forall j :: 0 <= j < |w| ==> w[i].rtt <= w[j].rtt)
    && (forall j :: i < j < |w| ==> w[i].rtt < w[j].rtt)
  }

  /** The index of that sample. */
  function BestAt(w: seq<Estimate>): (i: nat)
    requires w != []
    ensures Newest(w, i)
  {
    var last := |w| - 1;
    if last == 0 then 0
    else
      var i := BestAt(w[..last]);
      if w[last].rtt <= w[i].rtt then last else i
  }

  /** The estimate that wins in a window. */
  function Chosen(w: seq<Estimate>): Estimate
    requires w != []
  {
    w[BestAt(w)]
  }

  /** The window after a sample has slid in. */
  function Slid(w: seq<Estimate>, e: Estimate): (r: seq<Estimate>)
    ensures r != []
  {
    if |w| + 1 > WINDOW then (w + [e])[1..] else w + [e]
  }

  /** The estimate after a history of samples. */
  function Selected(history: seq<Sample>): Estimate
    requires history != []
  {
    Chosen(Estimates(Last(history, WINDOW)))
  }

  class ClockFilter {
    var window: seq<Estimate>
    ghost var history: seq<Sample>

    ghost predicate Valid()
      reads this
    {
      window == Estimates(Last(history, WINDOW))
    }

    constructor ()
      ensures Valid() && history == []
    {
      window, history := [], [];
    }

    /** Floors a quotient that the machine's division truncates toward zero. */
    static method FloorDiv2(n: int) returns (q: int)
      ensures q == FloorHalf(n)
    {
      var truncated := if n >= 0 then n / 2 else -(-n / 2);
      q := truncated;
      if n - 2 * truncated != 0 && n < 0 { q := q - 1; }
    }

    method Push(t0: int, t1: int, t2: int, t3: int) returns (best: Estimate)
      requires Valid()
      modifies this
      ensures Valid() && history == old(history) + [Sample(t0, t1, t2, t3)]
      ensures window == Slid(old(window), EstimateOf(Sample(t0, t1, t2, t3))) && best == Chosen(window)
      ensures best == Selected(history)
    {
      var rtt := (t3 - t0) - (t2 - t1);
      var offset := FloorDiv2((t1 - t0) + (t2 - t3));
      SlideIn(Estimate(rtt, offset), Sample(t0, t1, t2, t3));
      best := Least(window);
    }

    /** Appends an estimate and drops the oldest one past the window's size. */
    method SlideIn(e: Estimate, ghost s: Sample)
      requires Valid() && e == EstimateOf(s)
      modifies this
      ensures Valid() && history == old(history) + [s] && window == Slid(old(window), e)
    {
      Slide(history, s);
      history := history + [s];
      window := window + [e];
      if |window| > WINDOW { window := window[1..]; }
    }

    /** Scanning oldest to newest with <= lets the more recent of equal samples win. */
    static method Least(w: seq<Estimate>) returns (best: Estimate)
      requires w != []
      ensures best == Chosen(w)
    {
      best := w[0];
      var k := 0;
      while k < |w|
        invariant 0 <= k <= |w|
        invariant best == if k == 0 then w[0] else Chosen(w[..k])
      {
        assert w[..k + 1][..k] == w[..k];
        if w[k].rtt <= best.rtt { best := w[k]; }
        k := k + 1;
      }
      assert w[..|w|] == w;
    }
  }

  /** Appending a sample to the history slides the window by one once it is full. */
  lemma {:induction false} Slide(history: seq<Sample>, s: Sample)
    ensures Estimates(Last(history + [s], 16)) == Slid(Estimates(Last(history, 16)), EstimateOf(s))
  {
    var h := history + [s];
    var w' := Slid(Estimates(Last(history, 16)), EstimateOf(s));
    assert |Last(h, 16)| == |w'|;
    forall i | 0 <= i < |w'| ensures Estimates(Last(h, 16))[i] == w'[i] {
    }
  }

  // ---------------------------------------------------------------- how far off the estimate can be

  /** A sample taken while the host's clock was `theta` ahead, over two trips that took no negative time. */
  predicate Honest(s: Sample, theta: int) {
    && s.t1 - theta - s.t0 >= 0
    && s.t3 - (s.t2 - theta) >= 0
  }

  lemma {:induction false} SampleError(s: Sample, theta: int)
    requires Honest(s, theta)
    ensures var e := EstimateOf(s);
            e.rtt >= 0 && -((e.rtt + 1) / 2) <= e.offset - theta <= e.rtt / 2
  {
  }

  /** If every sample in the window saw the same true offset over trips that took no negative time, the selected
      estimate is off by at most half its round trip, rounded up, and no sample in the window has a smaller one. */
  lemma {:induction false} ErrorBound(history: seq<Sample>, theta: int)
    requires history != []
    requires forall i :: 0 <= i < |Last(history, 16)| ==> Honest(Last(history, 16)[i], theta)
    ensures var e := Selected(history);
            && -((e.rtt + 1) / 2) <= e.offset - theta <= e.rtt / 2
            && forall i :: 0 <= i < |Last(history, 16)| ==> e.rtt <= EstimateOf(Last(history, 16)[i]).rtt
  {
    var recent := Last(history, 16);
    var w := Estimates(recent);
    SampleError(recent[BestAt(w)], theta);
    forall j | 0 <= j < |recent| ensures w[BestAt(w)].rtt <= EstimateOf(recent[j]).rtt {
      assert w[BestAt(w)].rtt <= w[j].rtt;
    }
  }

  /** Of several samples with the least round trip in the window, the newest is selected. */
  lemma {:induction false} MostRecentWins(history: seq<Sample>, i: nat)
    requires history != []
    requires var w := Estimates(Last(history, 16)); Newest(w, i)
    ensures Selected(history) == EstimateOf(Last(history, 16)[i])
  {
    var w := Estimates(Last(history, 16));
    var k := BestAt(w);
    assert w[i].rtt <= w[k].rtt <= w[i].rtt;
  }

  /** The bound cannot be improved: for every round trip both ends of it occur. */
  lemma {:induction false} BoundTight(rtt: nat, theta: int)
    ensures Honest(Sample(0, theta + rtt, theta + rtt, rtt), theta)
    ensures EstimateOf(Sample(0, theta + rtt, theta + rtt, rtt)) == Estimate(rtt, theta + rtt / 2)
    ensures Honest(Sample(0, theta, theta, rtt), theta)
    ensures EstimateOf(Sample(0, theta, theta, rtt)) == Estimate(rtt, theta - (rtt + 1) / 2)
  {
  }
}
