/** "Drops in the last span" from a growing counter: a pruned window of
    samples. Times are nanoseconds. */
module DropWindow {
  import opened Basics

  const FIVE_MINUTES := 300 * SECOND

  /** at is when the counter stood at total. */
  datatype Sample = Sample(at: int, total: nat)

  predicate Sorted(ss: seq<Sample>) {
    forall i, j :: 0 <= i <= j < |ss| ==> ss[i].at <= ss[j].at
  }

  // ----- recording -----

  predicate Accepts(ss: seq<Sample>, s: Sample, gap: int) {
    ss == [] || s.at - ss[|ss| - 1].at >= gap
  }

  /** Forget samples older than the cutoff, but for the newest of them. */
  function Pruned(ss: seq<Sample>, cutoff: int): seq<Sample> {
    if |ss| > 1 && ss[1].at <= cutoff then Pruned(ss[1..], cutoff) else ss
  }

  function Recorded(ss: seq<Sample>, s: Sample, span: int, gap: int): seq<Sample> {
    if Accepts(ss, s, gap) then Pruned(ss + [s], s.at - span) else ss
  }

  /** The newest of the leading samples not after the cutoff, else the
      oldest. */
  function Base(ss: seq<Sample>, cutoff: int): (b: nat)
    requires ss != []
    ensures b < |ss|
  {
    if |ss| > 1 && ss[0].at <= cutoff && ss[1].at <= cutoff then 1 + Base(ss[1..], cutoff) else 0
  }

  function Dropped(ss: seq<Sample>, now: int, total: nat, span: int): nat {
    if ss == [] then 0
    else
      var base := ss[Base(ss, now - span)].total;
      if total < base then 0 else total - base
  }

  class DropWindow {
    const span: nat
    const minGap: nat
    var samples: seq<Sample>

    constructor (span: nat)
      ensures this.span == span && minGap == span / 60 && samples == []
    {
      this.span, minGap, samples := span, span / 60, [];
    }

    method Record(now: int, total: nat)
      modifies this
      ensures samples == Recorded(old(samples), Sample(now, total), span, minGap)
    {
      var n := |samples|;
      if n > 0 && now - samples[n - 1].at < minGap {
        return;
      }
      samples := samples + [Sample(now, total)];
      var cutoff := now - span;
      var i := 0;
      while i + 1 < |samples| && samples[i + 1].at <= cutoff
        invariant i < |samples| && Pruned(samples, cutoff) == Pruned(samples[i..], cutoff)
        invariant samples == old(samples) + [Sample(now, total)]
      {
        assert samples[i..][1..] == samples[i + 1..];
        i := i + 1;
      }
      samples := samples[i..];
    }

    method Delta(now: int, total: nat) returns (d: nat)
      ensures d == Dropped(samples, now, total, span)
    {
      if |samples| == 0 {
        return 0;
      }
      var cutoff := now - span;
      var base, i := samples[0], 0;
      while i < |samples| && samples[i].at <= cutoff
        invariant 0 <= i <= |samples|
        invariant base == samples[if i == 0 then 0 else i - 1]
        invariant i == 0 || (samples[i - 1].at <= cutoff
                             && Base(samples, cutoff) == i - 1 + Base(samples[i - 1..], cutoff))
      {
        base := samples[i];
        if i > 0 {
          assert samples[i - 1..][1..] == samples[i..];
        }
        i := i + 1;
      }
      if total < base.total {
        return 0;
      }
      return total - base.total;
    }
  }

  // ----- what the difference is taken to -----

  /** Of samples in order of time: the newest at least one span old, and the
      oldest when none is. */
  lemma {:induction false} BaseIsNewest(ss: seq<Sample>, cutoff: int)
    requires ss != [] && Sorted(ss)
    ensures var b := Base(ss, cutoff);
            && (b > 0 ==> ss[b].at <= cutoff)
            && forall i :: b < i < |ss| ==> ss[i].at > cutoff
  {
    if |ss| > 1 && ss[0].at <= cutoff && ss[1].at <= cutoff {
      BaseIsNewest(ss[1..], cutoff);
      var b := Base(ss, cutoff);
      forall i | b < i < |ss| ensures ss[i].at > cutoff {
        assert ss[1..][i - 1] == ss[i];
      }
    }
  }

  // ----- the window against the full history -----

  /** Everything that was accepted, nothing forgotten. */
  function History(calls: seq<Sample>, gap: int): seq<Sample> {
    if calls == [] then []
    else
      var last := |calls| - 1;
      var h := History(calls[..last], gap);
      if Accepts(h, calls[last], gap) then h + [calls[last]] else h
  }

  function Window(calls: seq<Sample>, span: int, gap: int): seq<Sample> {
    if calls == [] then []
    else
      var last := |calls| - 1;
      Recorded(Window(calls[..last], span, gap), calls[last], span, gap)
  }

  /** What was forgotten before w can no longer be a base, for w's first
      sample was a span old by the time of its last. */
  ghost predicate Forgettable(before: seq<Sample>, w: seq<Sample>, span: int) {
    before != [] ==> w != [] && w[0].at <= w[|w| - 1].at - span
  }

  lemma {:induction false} PruneForgets(before: seq<Sample>, w: seq<Sample>, span: int) returns (gone: seq<Sample>)
    requires w != [] && Forgettable(before, w, span)
    ensures var r := Pruned(w, w[|w| - 1].at - span);
            r != [] && before + w == gone + r && Forgettable(gone, r, span) && r[|r| - 1] == w[|w| - 1]
    decreases |w|
  {
    if |w| > 1 && w[1].at <= w[|w| - 1].at - span {
      assert before + w == before + [w[0]] + w[1..];
      gone := PruneForgets(before + [w[0]], w[1..], span);
    } else {
      gone := before;
    }
  }

  lemma {:induction false} HistorySorted(calls: seq<Sample>, gap: int)
    requires Sorted(calls)
    ensures Sorted(History(calls, gap))
    ensures History(calls, gap) != [] ==> History(calls, gap)[|History(calls, gap)| - 1].at <= calls[|calls| - 1].at
    ensures calls != [] ==> History(calls, gap) != []
  {
    if calls != [] {
      var last := |calls| - 1;
      HistorySorted(calls[..last], gap);
    }
  }

  lemma RecordForgets(gone: seq<Sample>, w: seq<Sample>, s: Sample, span: nat) returns (more: seq<Sample>)
    requires Forgettable(gone, w, span) && (w != [] ==> w[|w| - 1].at <= s.at)
    ensures var r := Pruned(w + [s], s.at - span); gone + w + [s] == more + r && Forgettable(more, r, span) && r != []
  {
    assert gone + w + [s] == gone + (w + [s]);
    more := PruneForgets(gone, w + [s], span);
  }

  lemma EndsStep(gone: seq<Sample>, w: seq<Sample>, s: Sample, span: nat, gap: int) returns (more: seq<Sample>)
    requires Forgettable(gone, w, span) && (w != [] ==> w[|w| - 1].at <= s.at)
    ensures var h, r := gone + w, Recorded(w, s, span, gap);
            (if Accepts(h, s, gap) then h + [s] else h) == more + r && Forgettable(more, r, span) && r != []
  {
    more := gone;
    if Accepts(w, s, gap) {
      more := RecordForgets(gone, w, s, span);
    }
  }

  /** The window is the end of the history. */
  lemma {:induction false} WindowEndsHistory(calls: seq<Sample>, span: nat, gap: int) returns (gone: seq<Sample>)
    requires Sorted(calls)
    ensures History(calls, gap) == gone + Window(calls, span, gap)
    ensures Forgettable(gone, Window(calls, span, gap), span) && (calls != [] ==> Window(calls, span, gap) != [])
    decreases |calls|
  {
    gone := [];
    if calls != [] {
      var last := |calls| - 1;
      gone := WindowEndsHistory(calls[..last], span, gap);
      HistorySorted(calls[..last], gap);
      gone := EndsStep(gone, Window(calls[..last], span, gap), calls[last], span, gap);
    }
  }

  lemma OnlyBase(ss: seq<Sample>, cutoff: int, b: nat)
    requires Sorted(ss) && b < |ss| && (b > 0 ==> ss[b].at <= cutoff) && forall i :: b < i < |ss| ==> ss[i].at > cutoff
    ensures Base(ss, cutoff) == b
  {
    BaseIsNewest(ss, cutoff);
  }

  lemma SameBase(gone: seq<Sample>, w: seq<Sample>, span: nat, now: int)
    requires Sorted(gone + w) && Sorted(w) && w != [] && Forgettable(gone, w, span) && now >= w[|w| - 1].at
    ensures (gone + w)[Base(gone + w, now - span)] == w[Base(w, now - span)]
  {
    BaseIsNewest(w, now - span);
    BaseBehind(gone, w, now - span, Base(w, now - span));
  }

  /** What is newest in the window is newest in the history. */
  lemma BaseBehind(gone: seq<Sample>, w: seq<Sample>, cutoff: int, c: nat)
    requires Sorted(gone + w) && c < |w| && (c > 0 || gone != [] ==> w[c].at <= cutoff)
    requires forall i :: c < i < |w| ==> w[i].at > cutoff
    ensures Base(gone + w, cutoff) == |gone| + c && (gone + w)[|gone| + c] == w[c]
  {
    var h, k := gone + w, |gone|;
    forall i | k + c < i < |h| ensures h[i].at > cutoff {
      assert h[i] == w[i - k];
    }
    OnlyBase(h, cutoff, k + c);
  }

  lemma SortedTail(gone: seq<Sample>, w: seq<Sample>)
    requires Sorted(gone + w)
    ensures Sorted(w)
  {
    forall i, j | 0 <= i <= j < |w| ensures w[i].at <= w[j].at {
      assert (gone + w)[|gone| + i] == w[i] && (gone + w)[|gone| + j] == w[j];
    }
  }

  /** Forgetting never shows: at any later time the window answers as the
      full history of accepted samples would. */
  lemma ForgettingNeverShows(calls: seq<Sample>, span: nat, gap: int, now: int, total: nat)
    requires Sorted(calls) && (calls != [] ==> now >= calls[|calls| - 1].at)
    ensures Dropped(Window(calls, span, gap), now, total, span) == Dropped(History(calls, gap), now, total, span)
  {
    var gone := WindowEndsHistory(calls, span, gap);
    HistorySorted(calls, gap);
    SortedTail(gone, Window(calls, span, gap));
    if calls != [] {
      SameBase(gone, Window(calls, span, gap), span, now);
    }
  }

  // ----- the window stays small -----

  ghost predicate Spaced(ss: seq<Sample>, gap: int) {
    forall i :: 0 < i < |ss| ==> ss[i].at - ss[i - 1].at >= gap
  }

  /** All but the first sample lie within one span of the last. */
  ghost predicate Recent(ss: seq<Sample>, span: int) {
    forall i :: 0 < i < |ss| ==> ss[i].at > ss[|ss| - 1].at - span
  }

  lemma {:induction false} PrunedSuffix(ss: seq<Sample>, cutoff: int) returns (k: nat)
    requires ss != []
    ensures k < |ss| && Pruned(ss, cutoff) == ss[k..] && (k + 1 < |ss| ==> ss[k + 1].at > cutoff)
    decreases |ss|
  {
    k := 0;
    if |ss| > 1 && ss[1].at <= cutoff {
      k := PrunedSuffix(ss[1..], cutoff);
      assert ss[1..][k..] == ss[k + 1..];
      k := k + 1;
    }
  }

  lemma PrunedIsRecent(ss: seq<Sample>, span: int, gap: int)
    requires Spaced(ss, gap) && gap >= 0 && ss != []
    ensures var r := Pruned(ss, ss[|ss| - 1].at - span); Spaced(r, gap) && Recent(r, span)
  {
    var k := PrunedSuffix(ss, ss[|ss| - 1].at - span);
    var r := ss[k..];
    assert forall i :: 0 <= i < |r| ==> r[i] == ss[k + i];
    assert Spaced(r, gap);
    if |r| > 1 {
      RecentFrom(r, span, gap);
    }
  }

  lemma RecentFrom(ss: seq<Sample>, span: int, gap: int)
    requires Spaced(ss, gap) && gap >= 0 && |ss| > 1 && ss[1].at > ss[|ss| - 1].at - span
    ensures Recent(ss, span)
  {
    forall i | 0 < i < |ss| ensures ss[i].at > ss[|ss| - 1].at - span {
      SpacedFrom(ss, gap, 1, i);
      assert (i - 1) * gap >= 0;
    }
  }

  lemma {:induction false} SpacedFrom(ss: seq<Sample>, gap: int, i: nat, j: nat)
    requires Spaced(ss, gap) && i <= j < |ss|
    ensures ss[j].at - ss[i].at >= (j - i) * gap
    decreases j
  {
    if i < j {
      SpacedFrom(ss, gap, i, j - 1);
      assert (j - i) * gap == (j - 1 - i) * gap + gap;
    }
  }

  lemma {:induction false} WindowIsRecent(calls: seq<Sample>, span: nat, gap: nat)
    requires Sorted(calls)
    ensures Spaced(Window(calls, span, gap), gap) && Recent(Window(calls, span, gap), span)
    decreases |calls|
  {
    if calls != [] {
      var last := |calls| - 1;
      WindowIsRecent(calls[..last], span, gap);
      var w, s := Window(calls[..last], span, gap), calls[last];
      if Accepts(w, s, gap) {
        PrunedIsRecent(w + [s], span, gap);
      }
    }
  }

  /** The window spans less than span after its first sample, in steps of at
      least gap: the five-minute one holds at most 61 samples. */
  lemma WindowStaysSmall(calls: seq<Sample>)
    requires Sorted(calls)
    ensures |Window(calls, FIVE_MINUTES, FIVE_MINUTES / 60)| <= 61
  {
    var gap := FIVE_MINUTES / 60;
    WindowIsRecent(calls, FIVE_MINUTES, gap);
    var w := Window(calls, FIVE_MINUTES, gap);
    if |w| > 2 {
      SpacedFrom(w, gap, 1, |w| - 1);
    }
  }
}
