/** The three-entry windowed minimum of src/win_filter.c (Kathleen Nichols' algorithm). */
module WinFilter {
  import opened SeqArith

  datatype Entry = Entry(t: nat, v: int)

  /** Best, second best and third best sample. */
  datatype Best = Best(e0: Entry, e1: Entry, e2: Entry)

  function Reset(t: nat, v: int): Best {
    Best(Entry(t, v), Entry(t, v), Entry(t, v))
  }

  /** `win_filter_apply_common`. The age of the best entry passes through a `uint32_t`. */
  function ApplyCommon(b: Best, win: uint32, t: nat, v: int): Best {
    var dt := U32(t - b.e0.t);
    var n := Entry(t, v);
    if dt > win then
      if t - b.e1.t > win then Best(b.e2, n, n) else Best(b.e1, b.e2, n)
    else if b.e1.t == b.e0.t && dt > win / 4 then Best(b.e0, n, n)
    else if b.e2.t == b.e1.t && dt > win / 2 then Best(b.e0, b.e1, n)
    else b
  }

  function ApplyMin(b: Best, win: uint32, t: nat, v: int): Best {
    if v <= b.e0.v || t - b.e2.t > win then Reset(t, v)
    else
      var n := Entry(t, v);
      var c := if v <= b.e1.v then Best(b.e0, n, n) else if v <= b.e2.v then Best(b.e0, b.e1, n) else b;
      ApplyCommon(c, win, t, v)
  }

  function ApplyMax(b: Best, win: uint32, t: nat, v: int): Best {
    if v >= b.e0.v || t - b.e2.t > win then Reset(t, v)
    else
      var n := Entry(t, v);
      var c := if v >= b.e1.v then Best(b.e0, n, n) else if v >= b.e2.v then Best(b.e0, b.e1, n) else b;
      ApplyCommon(c, win, t, v)
  }

  /** The filter after a whole run: the first sample resets it, the others are applied in order. */
  function Run(samples: seq<Entry>, win: uint32): Best
    requires samples != []
  {
    var s := samples[|samples| - 1];
    if |samples| == 1 then Reset(s.t, s.v) else ApplyMin(Run(samples[..|samples| - 1], win), win, s.t, s.v)
  }

  ghost predicate Ordered(samples: seq<Entry>) {
    forall i, j :: 0 <= i < j < |samples| ==> samples[i].t <= samples[j].t
  }

  /** `e` is sample number `i`, and no sample since is smaller. */
  ghost predicate LeastSince(samples: seq<Entry>, i: nat, e: Entry) {
    i < |samples| && samples[i] == e && forall k :: i <= k < |samples| ==> e.v <= samples[k].v
  }

  ghost predicate Recorded(samples: seq<Entry>, e: Entry) {
    exists i :: LeastSince(samples, i, e)
  }

  lemma StaysRecorded(samples: seq<Entry>, e: Entry, s: Entry)
    ensures Recorded(samples + [s], s)
    ensures Recorded(samples, e) && e.v <= s.v ==> Recorded(samples + [s], e)
  {
    assert LeastSince(samples + [s], |samples|, s);
    if Recorded(samples, e) && e.v <= s.v {
      var i :| LeastSince(samples, i, e);
      assert LeastSince(samples + [s], i, e);
    }
  }

  /** Entries in order of time and of value, the best no older than the window at time `now`. */
  ghost predicate InOrder(b: Best, win: uint32, now: nat) {
    && b.e0.t <= b.e1.t <= b.e2.t <= now
    && b.e0.v <= b.e1.v <= b.e2.v
    && now - b.e0.t <= win
  }

  /** What the three entries are after any run: in order, and each the least sample since its recording. */
  ghost predicate Exact(samples: seq<Entry>, win: uint32, b: Best) {
    && samples != []
    && Recorded(samples, b.e0) && Recorded(samples, b.e1) && Recorded(samples, b.e2)
    && InOrder(b, win, samples[|samples| - 1].t)
  }

  lemma AgeBound(b: Best, win: uint32, now: nat, t: nat)
    requires InOrder(b, win, now) && win < TWO_31 && now <= t && t - b.e2.t <= win
    ensures 0 <= t - b.e0.t <= 2 * win && U32(t - b.e0.t) == t - b.e0.t
  {
  }

  lemma OrderStep(b: Best, win: uint32, now: nat, t: nat, v: int)
    requires InOrder(b, win, now) && win < TWO_31 && now <= t
    ensures InOrder(ApplyMin(b, win, t, v), win, t)
  {
    if t - b.e2.t <= win {
      AgeBound(b, win, now, t);
    }
  }

  /** Every entry after an apply is the new sample or an old entry that is not larger. */
  lemma EntryOrigin(b: Best, win: uint32, t: nat, v: int, e: Entry)
    requires b.e0.v <= b.e1.v <= b.e2.v
    requires var r := ApplyMin(b, win, t, v); e == r.e0 || e == r.e1 || e == r.e2
    ensures e == Entry(t, v) || (e.v <= v && (e == b.e0 || e == b.e1 || e == b.e2))
  {
  }

  lemma ExactStep(samples: seq<Entry>, win: uint32, b: Best, s: Entry)
    requires Exact(samples, win, b) && samples[|samples| - 1].t <= s.t && win < TWO_31
    ensures Exact(samples + [s], win, ApplyMin(b, win, s.t, s.v))
  {
    var r := ApplyMin(b, win, s.t, s.v);
    OrderStep(b, win, samples[|samples| - 1].t, s.t, s.v);
    EntryRecorded(samples, win, b, s, r.e0);
    EntryRecorded(samples, win, b, s, r.e1);
    EntryRecorded(samples, win, b, s, r.e2);
  }

  lemma EntryRecorded(samples: seq<Entry>, win: uint32, b: Best, s: Entry, e: Entry)
    requires Exact(samples, win, b)
    requires var r := ApplyMin(b, win, s.t, s.v); e == r.e0 || e == r.e1 || e == r.e2
    ensures Recorded(samples + [s], e)
  {
    EntryOrigin(b, win, s.t, s.v, e);
    StaysRecorded(samples, e, s);
  }

  /** After every run over non-decreasing times the filter holds exact minima; in particular its answer
      is the least of all samples since the best entry was recorded. */
  lemma {:induction false} RunExact(samples: seq<Entry>, win: uint32)
    requires samples != [] && Ordered(samples) && win < TWO_31
    ensures Exact(samples, win, Run(samples, win))
  {
    var last := |samples| - 1;
    if last == 0 {
      StaysRecorded([], samples[0], samples[0]);
      assert [] + [samples[0]] == samples;
    } else {
      RunExact(samples[..last], win);
      assert samples[..last] + [samples[last]] == samples;
      ExactStep(samples[..last], win, Run(samples[..last], win), samples[last]);
    }
  }

  /** The 32-bit age in `win_filter_apply_common` is never truncated: whenever it is computed, the best
      entry is at most two windows old. */
  lemma AgeFits(samples: seq<Entry>, win: uint32, t: nat)
    requires samples != [] && Ordered(samples) && win < TWO_31 && samples[|samples| - 1].t <= t
    requires t - Run(samples, win).e2.t <= win
    ensures t - Run(samples, win).e0.t <= 2 * win
    ensures U32(t - Run(samples, win).e0.t) == t - Run(samples, win).e0.t
  {
    RunExact(samples, win);
    AgeBound(Run(samples, win), win, samples[|samples| - 1].t, t);
  }

  /** More cannot be promised: however long the window, the answer can be larger than a sample fed
      two milliseconds before. */
  lemma ForgetsRecentSample(win: uint32) returns (samples: seq<Entry>, i: nat)
    requires 4 <= win < TWO_31
    ensures samples != [] && Ordered(samples) && i < |samples|
    ensures samples[|samples| - 1].t - samples[i].t == 2
    ensures samples[i].v < Run(samples, win).e0.v
  {
    var q := win / 4 + 1;
    var a, b, c, d, e := Entry(0, 1), Entry(q, 5), Entry(q + win - 1, 10), Entry(q + win, 20), Entry(q + win + 1, 30);
    samples, i := [a, b, c, d, e], 2;
    assert samples[..4] == [a, b, c, d] && [a, b, c, d][..3] == [a, b, c] && [a, b, c][..2] == [a, b] && [a, b][..1] == [a];
    assert Run([a], win) == Best(a, a, a);
    assert Run([a, b], win) == Best(a, b, b);
    assert Run([a, b, c], win) == Best(b, b, c);
    assert Run([a, b, c, d], win) == Best(b, d, d);
    assert Run(samples, win) == Best(d, d, e);
  }

  function Negated(e: Entry): Entry {
    Entry(e.t, -e.v)
  }

  function NegatedBest(b: Best): Best {
    Best(Negated(b.e0), Negated(b.e1), Negated(b.e2))
  }

  /** The maximum filter is the minimum filter on negated samples, so the same holds of it. */
  lemma MaxMirrorsMin(b: Best, win: uint32, t: nat, v: int)
    ensures NegatedBest(ApplyMax(b, win, t, v)) == ApplyMin(NegatedBest(b), win, t, -v)
  {
  }

  /** `win_filter_t`, updated in place. */
  class Filter {
    const entries: array<Entry>

    ghost predicate Valid()
      reads this
    {
      entries.Length == 3
    }

    ghost function View(): Best
      reads this, entries
      requires Valid()
    {
      Best(entries[0], entries[1], entries[2])
    }

    constructor (t: nat, v: int)
      ensures Valid() && fresh(entries) && View() == Reset(t, v)
    {
      entries := new Entry[3](_ => Entry(t, v));
    }

    /** `win_filter_get`. */
    method Get() returns (v: int)
      requires Valid()
      ensures v == View().e0.v
    {
      v := entries[0].v;
    }

    method ResetTo(t: nat, v: int) returns (r: int)
      requires Valid()
      modifies entries
      ensures View() == Reset(t, v) && r == v
    {
      var val := Entry(t, v);
      entries[0] := val;
      entries[1] := entries[0];
      entries[2] := entries[1];
      r := entries[0].v;
    }

    method Common(win: uint32, t: nat, v: int) returns (r: int)
      requires Valid()
      modifies entries
      ensures View() == ApplyCommon(old(View()), win, t, v) && r == View().e0.v
    {
      var dt := U32(t - entries[0].t);
      var n := Entry(t, v);
      if dt > win {
        entries[0] := entries[1];
        entries[1] := entries[2];
        entries[2] := n;
        if t - entries[0].t > win {
          entries[0] := entries[1];
          entries[1] := entries[2];
          entries[2] := n;
        }
      } else if entries[1].t == entries[0].t && dt > win / 4 {
        entries[2] := n;
        entries[1] := n;
      } else if entries[2].t == entries[1].t && dt > win / 2 {
        entries[2] := n;
      }
      r := entries[0].v;
    }

    /** `win_filter_apply_min`. */
    method Min(win: uint32, t: nat, v: int) returns (r: int)
      requires Valid()
      modifies entries
      ensures View() == ApplyMin(old(View()), win, t, v) && r == View().e0.v
    {
      if v <= entries[0].v || t - entries[2].t > win {
        r := ResetTo(t, v);
        return;
      }
      var n := Entry(t, v);
      if v <= entries[1].v {
        entries[2] := n;
        entries[1] := n;
      } else if v <= entries[2].v {
        entries[2] := n;
      }
      r := Common(win, t, v);
    }

    /** `win_filter_apply_max`. */
    method Max(win: uint32, t: nat, v: int) returns (r: int)
      requires Valid()
      modifies entries
      ensures View() == ApplyMax(old(View()), win, t, v) && r == View().e0.v
    {
      if v >= entries[0].v || t - entries[2].t > win {
        r := ResetTo(t, v);
        return;
      }
      var n := Entry(t, v);
      if v >= entries[1].v {
        entries[2] := n;
        entries[1] := n;
      } else if v >= entries[2].v {
        entries[2] := n;
      }
      r := Common(win, t, v);
    }
  }
}
