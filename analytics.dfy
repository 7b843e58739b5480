/**
  The two figures the page shows once a run is complete: the total time of all
  requests and their average latency, both over the flattened transcript.
 */
module Analytics {
  import opened Transcripts

  datatype Option<T> = None | Some(value: T)

  /** No measured round trip is negative. */
  ghost predicate NoNegativeDuration(ws: seq<Word>) {
    forall k :: 0 <= k < |ws| ==> 0.0 <= ws[k].duration
  }

  /** The sum of the durations, accumulated from the first word on. */
  function SumDurations(ws: seq<Word>): real {
    if ws == [] then 0.0 else SumDurations(ws[..|ws| - 1]) + ws[|ws| - 1].duration
  }

  lemma {:induction false} SumConcat(a: seq<Word>, b: seq<Word>)
    ensures SumDurations(a + b) == SumDurations(a) + SumDurations(b)
  {
    if b != [] {
      var init, last := b[..|b| - 1], b[|b| - 1];
      assert b == init + [last];
      assert (a + b)[..|a + b| - 1] == a + init;
      assert (a + b)[|a + b| - 1] == last;
      SumConcat(a, init);
    } else {
      assert a + b == a;
    }
  }

  /** With no negative round trip the sum is not negative. */
  lemma {:induction false} SumNonNegative(ws: seq<Word>)
    ensures NoNegativeDuration(ws) ==> 0.0 <= SumDurations(ws)
  {
    if ws != [] {
      SumNonNegative(ws[..|ws| - 1]);
    }
  }

  /** Total run time: the sum of the durations of every stored word. */
  function TotalRunTime(t: Transcript): (r: real)
    ensures Flatten(t) == [] ==> r == 0.0
    ensures NoNegativeDuration(Flatten(t)) ==> 0.0 <= r
  {
    SumNonNegative(Flatten(t));
    SumDurations(Flatten(t))
  }

  /**
    Average latency: the mean duration of the stored words. With no stored
    word the page divides zero by zero; that undefined value is None here.
   */
  function AverageLatency(t: Transcript): (r: Option<real>)
    ensures r.Some? <==> Flatten(t) != []
    ensures r.Some? ==> r.value * (|Flatten(t)| as real) == TotalRunTime(t)
  {
    var n := |Flatten(t)|;
    if n == 0 then None
    else
      var total := TotalRunTime(t);
      DivideTimes(total, n as real);
      Some(total / (n as real))
  }

  lemma DivideTimes(s: real, n: real)
    requires n != 0.0
    ensures (s / n) * n == s
  {
  }

  /** Adding a result adds its duration to the total, unless it is a sentinel. */
  lemma TotalRunTimeAddWord(t: Transcript, w: Word)
    requires t != [] || IsBreak(w)
    ensures TotalRunTime(AddWord(t, w)) == TotalRunTime(t) + (if IsBreak(w) then 0.0 else w.duration)
  {
    AddWordFlatten(t, w);
    SumConcat(Flatten(t), if IsBreak(w) then [] else [w]);
    assert SumDurations([w]) == SumDurations([]) + w.duration;
  }

  /**
    After a run from the initial transcript the total is the sum of the
    durations of the non-sentinel results; the average is defined exactly when
    there was at least one, and is that sum divided by their number.
   */
  lemma RunFigures(rs: seq<Word>)
    ensures TotalRunTime(Replay(Initial, rs)) == SumDurations(Content(rs))
    ensures AverageLatency(Replay(Initial, rs)).Some? <==> Content(rs) != []
    ensures Content(rs) != [] ==>
      AverageLatency(Replay(Initial, rs)).value == SumDurations(Content(rs)) / (|Content(rs)| as real)
  {
    FromInitial(rs);
  }

  lemma {:induction false} SumBounds(ws: seq<Word>, lo: real, hi: real)
    requires forall k :: 0 <= k < |ws| ==> lo <= ws[k].duration <= hi
    ensures lo * (|ws| as real) <= SumDurations(ws) <= hi * (|ws| as real)
  {
    if ws != [] {
      SumBounds(ws[..|ws| - 1], lo, hi);
      assert lo * (|ws| as real) == lo * ((|ws| - 1) as real) + lo;
      assert hi * (|ws| as real) == hi * ((|ws| - 1) as real) + hi;
    }
  }

  lemma ScaleStrict(x: real, y: real, n: real)
    requires x < y && 0.0 < n
    ensures x * n < y * n
  {
    assert y * n - x * n == (y - x) * n;
  }

  lemma DivideBounds(s: real, n: real, lo: real, hi: real)
    requires 0.0 < n && lo * n <= s <= hi * n
    ensures lo <= s / n <= hi
  {
    var q := s / n;
    assert q * n == s;
    if q < lo {
      ScaleStrict(q, lo, n);
    }
    if hi < q {
      ScaleStrict(hi, q, n);
    }
  }

  /** A mean of durations lies between any lower and upper bound of them. */
  lemma MeanWithin(ws: seq<Word>, lo: real, hi: real)
    requires ws != []
    requires forall k :: 0 <= k < |ws| ==> lo <= ws[k].duration <= hi
    ensures lo <= SumDurations(ws) / (|ws| as real) <= hi
  {
    SumBounds(ws, lo, hi);
    DivideBounds(SumDurations(ws), |ws| as real, lo, hi);
  }

  /** The average latency lies between any lower and upper bound of the stored durations. */
  lemma AverageWithin(t: Transcript, lo: real, hi: real)
    requires Flatten(t) != []
    requires forall k :: 0 <= k < |Flatten(t)| ==> lo <= Flatten(t)[k].duration <= hi
    ensures lo <= AverageLatency(t).value <= hi
  {
    MeanWithin(Flatten(t), lo, hi);
  }
}
