/** The search-box pipeline: every keystroke publishes the current keyword;
    a 300 ms debounce keeps only the keyword that was followed by 300 ms of
    quiet (or was the last one typed), and then consecutive repeats of the
    same keyword are dropped. What survives is dispatched to the search
    handler. Time is a whole number of milliseconds. */
module Keystrokes {
  import opened Types

  /** The debounce window, in milliseconds. */
  const DebounceMs: int := 300

  /** One publication of the search keyword, at time `atMs`. */
  datatype Keystroke = Keystroke(atMs: int, keyword: string)

  /** Time between keystroke `k` and the next one. */
  function Gap(ev: seq<Keystroke>, k: int): int
    requires 0 <= k < |ev| - 1
  {
    ev[k + 1].atMs - ev[k].atMs
  }

  /** Keystroke `k` is emitted by the debounce: it is the last one, or the
      next one arrives at least a full window later. */
  predicate Survives(ev: seq<Keystroke>, k: int)
    requires 0 <= k < |ev|
  {
    k == |ev| - 1 || Gap(ev, k) >= DebounceMs
  }

  /** A run of keystrokes each arriving within the window of the previous. */
  predicate Burst(ev: seq<Keystroke>)
  {
    forall k :: 0 <= k < |ev| - 1 ==> Gap(ev, k) < DebounceMs
  }

  /** The keywords the debounce emits from keystroke `i` onward, in order. */
  function DebounceFrom(ev: seq<Keystroke>, i: int): (r: seq<string>)
    requires 0 <= i <= |ev|
    ensures |r| <= |ev| - i
    ensures i < |ev| ==> |r| > 0 && r[|r| - 1] == ev[|ev| - 1].keyword
    decreases |ev| - i
  {
    if i == |ev| then []
    else (if Survives(ev, i) then [ev[i].keyword] else []) + DebounceFrom(ev, i + 1)
  }

  /** Every keyword the debounce emits from `i` on is that of a surviving
      keystroke at or after `i`. */
  lemma {:induction false} DebounceFromSurvivors(ev: seq<Keystroke>, i: int)
    requires 0 <= i <= |ev|
    ensures forall x :: x in DebounceFrom(ev, i) ==>
              exists k :: i <= k < |ev| && Survives(ev, k) && ev[k].keyword == x
    decreases |ev| - i
  {
    if i < |ev| {
      DebounceFromSurvivors(ev, i + 1);
    }
  }

  /** `debounceTime(300)` over a finite stream of keystrokes: at most one
      keyword per keystroke, and the last keyword typed always comes out
      last. */
  function Debounce(ev: seq<Keystroke>): (r: seq<string>)
    ensures |r| <= |ev|
    ensures |ev| > 0 ==> |r| > 0 && r[|r| - 1] == ev[|ev| - 1].keyword
  {
    DebounceFrom(ev, 0)
  }

  /** From any point of a burst on, the debounce emits only the burst's last
      keyword. */
  lemma {:induction false} BurstFrom(ev: seq<Keystroke>, i: int)
    requires Burst(ev) && 0 <= i < |ev|
    ensures DebounceFrom(ev, i) == [ev[|ev| - 1].keyword]
    decreases |ev| - i
  {
    if i < |ev| - 1 {
      assert Gap(ev, i) < DebounceMs;
      BurstFrom(ev, i + 1);
    }
  }

  /** However many keystrokes arrive each within 300 ms of the previous one,
      the debounce emits exactly one keyword: the last. */
  lemma BurstEmitsLast(ev: seq<Keystroke>)
    requires |ev| > 0 && Burst(ev)
    ensures Debounce(ev) == [ev[|ev| - 1].keyword]
  {
    BurstFrom(ev, 0);
  }

  /** The part of the stream after a prefix `a` is debounced as if `a` had
      not been there. */
  lemma {:induction false} DebounceSuffix(a: seq<Keystroke>, b: seq<Keystroke>, j: int)
    requires 0 <= j <= |b|
    ensures DebounceFrom(a + b, |a| + j) == DebounceFrom(b, j)
    decreases |b| - j
  {
    if j < |b| {
      var ab := a + b;
      assert ab[|a| + j] == b[j];
      if j < |b| - 1 {
        assert ab[|a| + j + 1] == b[j + 1];
        assert Gap(ab, |a| + j) == Gap(b, j);
      }
      assert Survives(ab, |a| + j) == Survives(b, j);
      DebounceSuffix(a, b, j + 1);
    }
  }

  /** A quiet period of at least 300 ms cuts the stream in two halves that
      are debounced independently. Together with `BurstEmitsLast` this pins
      down the debounce on every stream: one keyword per maximal burst. */
  lemma {:induction false} DebounceSplitFrom(a: seq<Keystroke>, b: seq<Keystroke>, i: int)
    requires |a| > 0 && |b| > 0 ==> b[0].atMs - a[|a| - 1].atMs >= DebounceMs
    requires 0 <= i <= |a|
    ensures DebounceFrom(a + b, i) == DebounceFrom(a, i) + Debounce(b)
    decreases |a| - i
  {
    if i == |a| {
      DebounceSuffix(a, b, 0);
      assert DebounceFrom(a, i) == [];
    } else {
      SurvivesBeforeSplit(a, b, i);
      DebounceSplitFrom(a, b, i + 1);
      var head := if Survives(a, i) then [a[i].keyword] else [];
      assert DebounceFrom(a + b, i) == head + DebounceFrom(a + b, i + 1);
      assert DebounceFrom(a, i) == head + DebounceFrom(a, i + 1);
    }
  }

  /** Before a quiet period, a keystroke survives in `a + b` exactly when it
      survives in `a`. */
  lemma SurvivesBeforeSplit(a: seq<Keystroke>, b: seq<Keystroke>, i: int)
    requires |a| > 0 && |b| > 0 ==> b[0].atMs - a[|a| - 1].atMs >= DebounceMs
    requires 0 <= i < |a|
    ensures (a + b)[i] == a[i]
    ensures Survives(a + b, i) == Survives(a, i)
  {
  }

  lemma DebounceSplit(a: seq<Keystroke>, b: seq<Keystroke>)
    requires |a| > 0 && |b| > 0 ==> b[0].atMs - a[|a| - 1].atMs >= DebounceMs
    ensures Debounce(a + b) == Debounce(a) + Debounce(b)
  {
    DebounceSplitFrom(a, b, 0);
  }

  /** No two neighbours of `xs` are equal. */
  predicate NoRepeats(xs: seq<string>)
  {
    forall j :: 0 < j < |xs| ==> xs[j - 1] != xs[j]
  }

  /** `distinctUntilChanged()`: emits a value only when it differs from the
      last value emitted (`last`, none before the first emission). */
  function DistinctFrom(last: Option<string>, xs: seq<string>): (r: seq<string>)
    ensures |r| <= |xs|
    ensures NoRepeats(r)
    ensures |r| > 0 && last.Some? ==> r[0] != last.value
    ensures |xs| > 0 && last != Some(xs[0]) ==> |r| > 0 && r[0] == xs[0]
    ensures forall x :: x in r ==> x in xs
    ensures |xs| > 0 ==>
              if |r| > 0 then r[|r| - 1] == xs[|xs| - 1] else last == Some(xs[|xs| - 1])
    decreases xs
  {
    if xs == [] then []
    else if last == Some(xs[0]) then DistinctFrom(last, xs[1..])
    else [xs[0]] + DistinctFrom(Some(xs[0]), xs[1..])
  }

  /** `distinctUntilChanged()` from the start of a stream: the first value
      always passes, no two neighbours of the output are equal, and the last
      value of the input is the last one emitted. */
  function DistinctUntilChanged(xs: seq<string>): (r: seq<string>)
    ensures |r| <= |xs| && NoRepeats(r)
    ensures |xs| > 0 ==> |r| > 0 && r[0] == xs[0] && r[|r| - 1] == xs[|xs| - 1]
  {
    DistinctFrom(None, xs)
  }

  /** The filter drops nothing it need not: a sequence without neighbouring
      repeats (whose head differs from the last emission) passes unchanged. */
  lemma {:induction false} DistinctKeepsNoRepeats(last: Option<string>, xs: seq<string>)
    requires NoRepeats(xs)
    requires |xs| > 0 && last.Some? ==> xs[0] != last.value
    ensures DistinctFrom(last, xs) == xs
    decreases xs
  {
    if xs != [] {
      var x, tail := xs[0], xs[1..];
      DistinctPassesFresh(last, xs);
      NoRepeatsTail(xs);
      DistinctKeepsNoRepeats(Some(x), tail);
      assert xs == [x] + tail;
    }
  }

  /** A head that differs from `last` is emitted, and the rest is filtered
      against it. */
  lemma DistinctPassesFresh(last: Option<string>, xs: seq<string>)
    requires xs != [] && last != Some(xs[0])
    ensures DistinctFrom(last, xs) == [xs[0]] + DistinctFrom(Some(xs[0]), xs[1..])
  {
  }

  /** Dropping the head keeps a sequence free of neighbouring repeats, and
      the new head differs from the old one. */
  lemma NoRepeatsTail(xs: seq<string>)
    requires NoRepeats(xs) && |xs| > 0
    ensures NoRepeats(xs[1..])
    ensures |xs| > 1 ==> xs[1..][0] != xs[0]
  {
    var tail := xs[1..];
    forall j | 0 < j < |tail|
      ensures tail[j - 1] != tail[j]
    {
      assert tail[j - 1] == xs[j] && tail[j] == xs[j + 1];
    }
  }

  /** The value the filter compares the next input against: the last input
      seen, or `last` when nothing has been seen since. */
  function Prev(last: Option<string>, xs: seq<string>): Option<string>
  {
    if xs == [] then last else Some(xs[|xs| - 1])
  }

  /** Filtering a concatenation filters the first part, then the second part
      against the last value of the first. */
  lemma {:induction false} DistinctAppend(last: Option<string>, xs: seq<string>, ys: seq<string>)
    ensures DistinctFrom(last, xs + ys) == DistinctFrom(last, xs) + DistinctFrom(Prev(last, xs), ys)
    decreases xs
  {
    if xs == [] {
      assert xs + ys == ys;
    } else {
      var tail := xs[1..];
      assert (xs + ys)[0] == xs[0] && (xs + ys)[1..] == tail + ys;
      if last == Some(xs[0]) {
        DistinctAppend(last, tail, ys);
        assert Prev(last, tail) == Prev(last, xs);
      } else {
        var x := xs[0];
        DistinctAppend(Some(x), tail, ys);
        assert Prev(Some(x), tail) == Prev(last, xs);
        assert [x] + (DistinctFrom(Some(x), tail) + DistinctFrom(Prev(last, xs), ys))
            == ([x] + DistinctFrom(Some(x), tail)) + DistinctFrom(Prev(last, xs), ys);
      }
    }
  }

  /** One more input is emitted exactly when it differs from the value
      before it; this fixes the filter's output on every input. */
  lemma DistinctSnoc(last: Option<string>, xs: seq<string>, x: string)
    ensures DistinctFrom(last, xs + [x])
         == DistinctFrom(last, xs) + (if Prev(last, xs) == Some(x) then [] else [x])
  {
    DistinctAppend(last, xs, [x]);
    assert [x][1..] == [];
  }

  /** Filtering twice is filtering once. */
  lemma DistinctIdempotent(xs: seq<string>)
    ensures DistinctUntilChanged(DistinctUntilChanged(xs)) == DistinctUntilChanged(xs)
  {
    DistinctKeepsNoRepeats(None, DistinctUntilChanged(xs));
  }

  /** The keywords handed to the search handler for a stream of keystrokes:
      no keyword twice in a row, and the last keyword typed is searched
      last. */
  function Dispatched(ev: seq<Keystroke>): (r: seq<string>)
    ensures |r| <= |ev| && NoRepeats(r)
    ensures |ev| > 0 ==> |r| > 0 && r[|r| - 1] == ev[|ev| - 1].keyword
  {
    DistinctUntilChanged(Debounce(ev))
  }

  /** What the search box promises: every dispatched keyword ends a burst of
      keystrokes less than 300 ms apart, no keyword is dispatched twice in a
      row, and the last keyword typed is the last one dispatched. */
  lemma DispatchedShape(ev: seq<Keystroke>)
    ensures |Dispatched(ev)| <= |ev|
    ensures NoRepeats(Dispatched(ev))
    ensures forall x :: x in Dispatched(ev) ==>
              exists k :: 0 <= k < |ev| && Survives(ev, k) && ev[k].keyword == x
    ensures |ev| > 0 ==>
              |Dispatched(ev)| > 0 && Dispatched(ev)[|Dispatched(ev)| - 1] == ev[|ev| - 1].keyword
  {
    DebounceFromSurvivors(ev, 0);
  }

  /** A quiet period of at least 300 ms splits the pipeline: the keywords
      after it are dispatched as if typed afresh, except that the first one
      is compared with the keyword that settled before the pause. */
  lemma DispatchedSplit(a: seq<Keystroke>, b: seq<Keystroke>)
    requires |a| > 0 && |b| > 0 && b[0].atMs - a[|a| - 1].atMs >= DebounceMs
    ensures Dispatched(a + b)
         == Dispatched(a) + DistinctFrom(Some(a[|a| - 1].keyword), Debounce(b))
  {
    DebounceSplit(a, b);
    DistinctAppend(None, Debounce(a), Debounce(b));
  }

  /** A keyword that settles after a pause is searched exactly when it
      differs from the keyword that settled before the pause. */
  lemma SettledKeywordDispatched(a: seq<Keystroke>, b: seq<Keystroke>)
    requires |a| > 0 && |b| > 0 && b[0].atMs - a[|a| - 1].atMs >= DebounceMs
    requires Burst(b)
    ensures Dispatched(a + b)
         == Dispatched(a) + (if a[|a| - 1].keyword == b[|b| - 1].keyword then []
                             else [b[|b| - 1].keyword])
  {
    DispatchedSplit(a, b);
    BurstEmitsLast(b);
    DistinctSnoc(Some(a[|a| - 1].keyword), [], b[|b| - 1].keyword);
    assert [] + [b[|b| - 1].keyword] == [b[|b| - 1].keyword];
  }

  /** Returning to an earlier keyword after settling on another searches it
      again. */
  lemma ReturningKeywordSearchedAgain()
    ensures Dispatched([Keystroke(0, "a"), Keystroke(400, "b"), Keystroke(800, "a")])
         == ["a", "b", "a"]
  {
    var first, second, third := [Keystroke(0, "a")], [Keystroke(400, "b")], [Keystroke(800, "a")];
    SettledKeywordDispatched(first, second);
    SettledKeywordDispatched(first + second, third);
    assert Dispatched(first) == ["a"] by {
      BurstDispatchesOnce(first);
    }
    assert (first + second) + third
        == [Keystroke(0, "a"), Keystroke(400, "b"), Keystroke(800, "a")];
  }

  /** A burst of keystrokes dispatches exactly one search, for its last
      keyword. */
  lemma BurstDispatchesOnce(ev: seq<Keystroke>)
    requires |ev| > 0 && Burst(ev)
    ensures Dispatched(ev) == [ev[|ev| - 1].keyword]
  {
    BurstEmitsLast(ev);
  }

  /** Typing `invoice` one letter every 100 ms and then pausing dispatches a
      single search, for `invoice`. */
  lemma TypingInvoice()
    ensures Dispatched([Keystroke(0, "i"), Keystroke(100, "in"), Keystroke(200, "inv"),
                        Keystroke(300, "invo"), Keystroke(400, "invoi"),
                        Keystroke(500, "invoic"), Keystroke(600, "invoice")]) == ["invoice"]
  {
    var ev := [Keystroke(0, "i"), Keystroke(100, "in"), Keystroke(200, "inv"),
               Keystroke(300, "invo"), Keystroke(400, "invoi"),
               Keystroke(500, "invoic"), Keystroke(600, "invoice")];
    assert Burst(ev);
    BurstDispatchesOnce(ev);
  }

  /** Settling on the same keyword twice, with a pause between, searches
      only once. */
  lemma SameKeywordTwiceSearchesOnce()
    ensures Dispatched([Keystroke(0, "report"), Keystroke(500, "repor"),
                        Keystroke(600, "report")]) == ["report"]
  {
  }
}
