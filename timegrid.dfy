/**
 * The time-grid generator of slot generation: a window of the day cut into
 * back-to-back slots of fixed length, with an optional idle buffer between
 * consecutive slots.
 */
module TimeGrid {
  import opened Lexicographic
  import opened Clock

  /** A slot as minutes since midnight. */
  datatype Span = Span(start: nat, end: nat)

  /** A slot as the strings stored in a slot record. */
  datatype TimeRange = TimeRange(startTime: string, endTime: string)

  /** The idle time added after a slot: the buffer if it is positive, else none. */
  function Gap(buffer: int): nat
  {
    if buffer > 0 then buffer else 0
  }

  /**
   * Each round of the generator moves the cursor forward. With a zero
   * duration and no positive buffer it would stay where it is for ever.
   */
  predicate Advances(duration: int, buffer: int)
  {
    0 <= duration && 0 < duration + Gap(buffer)
  }

  /** Reference definition of the grid from `cursor` up to the window end `end`. */
  function GridFrom(cursor: nat, end: nat, duration: int, buffer: int): seq<Span>
    requires Advances(duration, buffer)
    decreases end - cursor
  {
    if cursor >= end then []
    else if cursor + duration > end then []
    else [Span(cursor, cursor + duration)] + GridFrom(cursor + duration + Gap(buffer), end, duration, buffer)
  }

  /**
   * The strings of a minute grid: the first start is the caller's own string,
   * every later start and every end is formatted.
   */
  function Label(g: seq<Span>, first: string): (r: seq<TimeRange>)
    ensures |r| == |g|
    decreases |g|
  {
    if g == [] then []
    else
      var last := g[|g| - 1];
      Label(g[..|g| - 1], first)
        + [TimeRange(if |g| == 1 then first else Format(last.start), Format(last.end))]
  }

  lemma {:induction false} LabelAt(g: seq<Span>, first: string, i: nat)
    requires i < |g|
    ensures Label(g, first)[i]
         == TimeRange(if i == 0 then first else Format(g[i].start), Format(g[i].end))
    decreases |g|
  {
    if i < |g| - 1 {
      LabelAt(g[..|g| - 1], first, i);
    }
  }

  /** The slots generated for the window from `startTime` to `endTime`. */
  function Grid(startTime: string, endTime: string, duration: int, buffer: int): seq<TimeRange>
    requires ValidTime(startTime) && ValidTime(endTime) && Advances(duration, buffer)
  {
    Label(GridFrom(Parse(startTime), Parse(endTime), duration, buffer), startTime)
  }

  /**
   * The generator loop: reads the current time back from its string every
   * round, stops at or past the end or when the next slot would overrun it,
   * and adds the buffer only after an emitted slot.
   */
  method GenerateGrid(startTime: string, endTime: string, slotDuration: int, buffer: int)
    returns (slots: seq<TimeRange>)
    requires ValidTime(startTime) && ValidTime(endTime)
    requires Advances(slotDuration, buffer)
    ensures slots == Grid(startTime, endTime, slotDuration, buffer)
  {
    slots := [];
    var currentTime := startTime;
    var endMinutes := Parse(endTime);
    ghost var done: seq<Span> := [];
    ghost var cursor: nat := Parse(startTime);
    ghost var whole := GridFrom(cursor, endMinutes, slotDuration, buffer);
    assert [] + whole == whole;
    while true
      invariant ValidTime(currentTime) && Parse(currentTime) == cursor
      invariant Splits(whole, done, cursor, endMinutes, slotDuration, buffer)
      invariant slots == Label(done, startTime)
      invariant done == [] ==> currentTime == startTime
      invariant done != [] ==> currentTime == Format(cursor)
      decreases endMinutes - cursor
    {
      var currentMinutes := Parse(currentTime);
      if currentMinutes >= endMinutes {
        GridStop(whole, done, cursor, endMinutes, slotDuration, buffer);
        break;
      }
      var nextMinutes := currentMinutes + slotDuration;
      var nextTime := Format(nextMinutes);
      if nextMinutes > endMinutes {
        GridStop(whole, done, cursor, endMinutes, slotDuration, buffer);
        break;
      }
      ghost var before, from := done, cursor;
      LabelSnoc(done, Span(from, nextMinutes), startTime, currentTime, slots, nextTime);
      slots := slots + [TimeRange(currentTime, nextTime)];
      done := before + [Span(from, nextMinutes)];
      currentTime := nextTime;
      cursor := nextMinutes;
      if buffer > 0 {
        var bufferMinutes := nextMinutes + buffer;
        currentTime := Format(bufferMinutes);
        cursor := bufferMinutes;
      }
      GridStep(whole, before, done, from, nextMinutes, cursor, endMinutes, slotDuration, buffer);
      ParseFormat(cursor);
    }
  }

  /** `whole` is the grid from the start: `done` is emitted and the rest runs from `cursor`. */
  ghost predicate Splits(whole: seq<Span>, done: seq<Span>, cursor: nat, end: nat, duration: int, buffer: int)
  {
    Advances(duration, buffer) && done + GridFrom(cursor, end, duration, buffer) == whole
  }

  /**
   * One round of the reference grid: a slot that fits is emitted and the
   * cursor moves past it and the buffer.
   */
  lemma GridStep(whole: seq<Span>, before: seq<Span>, after: seq<Span>, cursor: nat, slotEnd: nat,
                 next: nat, end: nat, duration: int, buffer: int)
    requires Splits(whole, before, cursor, end, duration, buffer)
    requires cursor < end && slotEnd == cursor + duration && slotEnd <= end
    requires after == before + [Span(cursor, slotEnd)]
    requires next == slotEnd + Gap(buffer)
    ensures Splits(whole, after, next, end, duration, buffer)
  {
    AppendAssociative(before, [Span(cursor, slotEnd)], GridFrom(next, end, duration, buffer));
  }

  /** The grid is complete once the cursor reaches the end or the next slot would overrun it. */
  lemma GridStop(whole: seq<Span>, done: seq<Span>, cursor: nat, end: nat, duration: int, buffer: int)
    requires Splits(whole, done, cursor, end, duration, buffer)
    requires cursor >= end || cursor + duration > end
    ensures done == whole
  {
    AppendEmpty(done);
  }

  lemma AppendEmpty<T>(a: seq<T>)
    ensures a + [] == a
  {
  }

  lemma AppendAssociative<T>(a: seq<T>, b: seq<T>, c: seq<T>)
    ensures (a + b) + c == a + (b + c)
  {
  }

  lemma LabelSnoc(g: seq<Span>, s: Span, first: string, current: string,
                  labels: seq<TimeRange>, endTime: string)
    requires labels == Label(g, first)
    requires g == [] ==> current == first
    requires g != [] ==> current == Format(s.start)
    requires endTime == Format(s.end)
    ensures Label(g + [s], first) == labels + [TimeRange(current, endTime)]
  {
    assert (g + [s])[..|g|] == g;
  }

  /** Every slot lasts exactly the configured duration. */
  lemma {:induction false} GridSlotLength(cursor: nat, end: nat, duration: int, buffer: int)
    requires Advances(duration, buffer)
    ensures forall s :: s in GridFrom(cursor, end, duration, buffer) ==> s.end == s.start + duration
    decreases end - cursor
  {
    if cursor < end && cursor + duration <= end {
      GridSlotLength(cursor + duration + Gap(buffer), end, duration, buffer);
    }
  }

  /**
   * The grid starts at the cursor, is empty when the cursor is at or past the
   * end, and keeps every slot inside the window; a slot may end exactly at the end.
   */
  lemma {:induction false} GridInWindow(cursor: nat, end: nat, duration: int, buffer: int)
    requires Advances(duration, buffer)
    ensures var g := GridFrom(cursor, end, duration, buffer);
      && (cursor >= end ==> g == [])
      && (g != [] ==> g[0].start == cursor)
      && forall s :: s in g ==> cursor <= s.start && s.end <= end
    decreases end - cursor
  {
    if cursor < end && cursor + duration <= end {
      GridInWindow(cursor + duration + Gap(buffer), end, duration, buffer);
    }
  }

  /** Consecutive slots are separated by exactly the buffer, or by nothing. */
  lemma {:induction false} GridSpacing(cursor: nat, end: nat, duration: int, buffer: int)
    requires Advances(duration, buffer)
    ensures var g := GridFrom(cursor, end, duration, buffer);
      forall i :: 0 <= i < |g| - 1 ==> g[i + 1].start == g[i].end + Gap(buffer)
    decreases end - cursor
  {
    if cursor < end && cursor + duration <= end {
      var next := cursor + duration + Gap(buffer);
      GridSpacing(next, end, duration, buffer);
      GridInWindow(next, end, duration, buffer);
    }
  }

  /**
   * Nothing that fits is dropped: the candidate after the last slot (the
   * cursor itself when there is none) starts at or past the end or overruns it.
   */
  lemma {:induction false} GridMaximal(cursor: nat, end: nat, duration: int, buffer: int)
    requires Advances(duration, buffer)
    ensures var g := GridFrom(cursor, end, duration, buffer);
      var next := if g == [] then cursor else g[|g| - 1].end + Gap(buffer);
      next >= end || next + duration > end
    decreases end - cursor
  {
    if cursor < end && cursor + duration <= end {
      var next := cursor + duration + Gap(buffer);
      GridMaximal(next, end, duration, buffer);
    }
  }

  /** Slots come in time order and never overlap. */
  lemma {:induction false} GridOrdered(cursor: nat, end: nat, duration: int, buffer: int)
    requires Advances(duration, buffer)
    ensures var g := GridFrom(cursor, end, duration, buffer);
      forall i, j :: 0 <= i < j < |g| ==> g[i].end <= g[j].start && g[i].start < g[j].start
    decreases end - cursor
  {
    if cursor < end && cursor + duration <= end {
      var g := GridFrom(cursor, end, duration, buffer);
      var next := cursor + duration + Gap(buffer);
      var rest := GridFrom(next, end, duration, buffer);
      GridOrdered(next, end, duration, buffer);
      GridInWindow(next, end, duration, buffer);
      assert g == [Span(cursor, cursor + duration)] + rest;
      forall i, j | 0 <= i < j < |g|
        ensures g[i].end <= g[j].start && g[i].start < g[j].start
      {
        if i > 0 {
          assert g[i] == rest[i - 1] && g[j] == rest[j - 1];
        } else {
          assert rest[j - 1] in rest;
        }
      }
    }
  }

  /**
   * The window holds all `n` slots and the `n - 1` gaps between them:
   * `n * duration + (n - 1) * gap <= end - cursor`.
   */
  lemma {:induction false} GridCount(cursor: nat, end: nat, duration: int, buffer: int)
    requires Advances(duration, buffer)
    ensures var n := |GridFrom(cursor, end, duration, buffer)|;
      n > 0 ==> n * duration + (n - 1) * Gap(buffer) <= end - cursor
    decreases end - cursor
  {
    if cursor < end && cursor + duration <= end {
      var next := cursor + duration + Gap(buffer);
      var m := |GridFrom(next, end, duration, buffer)|;
      GridCount(next, end, duration, buffer);
      if m > 0 {
        assert (m + 1) * duration + m * Gap(buffer)
            == duration + Gap(buffer) + (m * duration + (m - 1) * Gap(buffer));
      }
    }
  }

  /** The first slot keeps the caller's start string; every later time is formatted "HH:MM". */
  lemma GridTimes(startTime: string, endTime: string, duration: int, buffer: int)
    requires ValidTime(startTime) && ValidTime(endTime) && Advances(duration, buffer)
    ensures var r := Grid(startTime, endTime, duration, buffer);
      var g := GridFrom(Parse(startTime), Parse(endTime), duration, buffer);
      && |r| == |g|
      && (r != [] ==> r[0].startTime == startTime)
      && forall i :: 0 <= i < |r| ==>
           && ValidTime(r[i].startTime) && Parse(r[i].startTime) == g[i].start
           && ValidTime(r[i].endTime) && Parse(r[i].endTime) == g[i].end
           && r[i].endTime == Format(g[i].end)
           && (i > 0 ==> r[i].startTime == Format(g[i].start))
  {
    var r := Grid(startTime, endTime, duration, buffer);
    var g := GridFrom(Parse(startTime), Parse(endTime), duration, buffer);
    GridInWindow(Parse(startTime), Parse(endTime), duration, buffer);
    forall i | 0 <= i < |r|
      ensures r[i] == TimeRange(if i == 0 then startTime else Format(g[i].start), Format(g[i].end))
      ensures ValidTime(r[i].startTime) && Parse(r[i].startTime) == g[i].start
      ensures ValidTime(r[i].endTime) && Parse(r[i].endTime) == g[i].end
    {
      LabelAt(g, startTime, i);
      ParseFormat(g[i].start);
      ParseFormat(g[i].end);
    }
  }

  /**
   * Read back as minutes, every generated slot lasts the duration, lies in
   * the window, and the next one starts a buffer (or nothing) after it ends.
   */
  lemma GridProperties(startTime: string, endTime: string, duration: int, buffer: int)
    requires ValidTime(startTime) && ValidTime(endTime) && Advances(duration, buffer)
    ensures var r := Grid(startTime, endTime, duration, buffer);
      && (Parse(startTime) >= Parse(endTime) ==> r == [])
      && (forall i :: 0 <= i < |r| ==>
            && ValidTime(r[i].startTime) && ValidTime(r[i].endTime)
            && Parse(r[i].endTime) == Parse(r[i].startTime) + duration
            && Parse(startTime) <= Parse(r[i].startTime)
            && Parse(r[i].endTime) <= Parse(endTime))
      && (forall i :: 0 <= i < |r| - 1 ==>
            Parse(r[i + 1].startTime) == Parse(r[i].endTime) + Gap(buffer))
  {
    var g := GridFrom(Parse(startTime), Parse(endTime), duration, buffer);
    GridTimes(startTime, endTime, duration, buffer);
    GridSlotLength(Parse(startTime), Parse(endTime), duration, buffer);
    GridInWindow(Parse(startTime), Parse(endTime), duration, buffer);
    GridSpacing(Parse(startTime), Parse(endTime), duration, buffer);
    forall i | 0 <= i < |g| ensures g[i] in g { }
  }

  /** No two generated slots share a start string, so none collides in the store. */
  lemma GridStartsDistinct(startTime: string, endTime: string, duration: int, buffer: int)
    requires ValidTime(startTime) && ValidTime(endTime) && Advances(duration, buffer)
    ensures var r := Grid(startTime, endTime, duration, buffer);
      forall i, j :: 0 <= i < j < |r| ==> r[i].startTime != r[j].startTime
  {
    GridTimes(startTime, endTime, duration, buffer);
    GridOrdered(Parse(startTime), Parse(endTime), duration, buffer);
  }

  /**
   * When the caller's start is itself written "HH:MM" and the window ends
   * before 100:00, every start and end string is "HH:MM" too.
   */
  lemma GridCanonical(startTime: string, endTime: string, duration: int, buffer: int)
    requires Canonical(startTime) && ValidTime(endTime) && Parse(endTime) < 6000
    requires Advances(duration, buffer)
    ensures var r := Grid(startTime, endTime, duration, buffer);
      forall i :: 0 <= i < |r| ==> Canonical(r[i].startTime) && Canonical(r[i].endTime)
  {
    var r := Grid(startTime, endTime, duration, buffer);
    var g := GridFrom(Parse(startTime), Parse(endTime), duration, buffer);
    GridTimes(startTime, endTime, duration, buffer);
    GridInWindow(Parse(startTime), Parse(endTime), duration, buffer);
    GridSlotLength(Parse(startTime), Parse(endTime), duration, buffer);
    forall i | 0 <= i < |r|
      ensures Canonical(r[i].startTime) && Canonical(r[i].endTime)
    {
      assert g[i] in g;
      assert g[i].start < 6000 && g[i].end < 6000;
      FormatCanonical(g[i].end);
      if i > 0 {
        FormatCanonical(g[i].start);
      }
    }
  }

  /**
   * Under the same conditions the generated slots are already in ascending
   * string order of their start times, the order the query sorts by.
   */
  lemma GridSortedByStart(startTime: string, endTime: string, duration: int, buffer: int)
    requires Canonical(startTime) && ValidTime(endTime) && Parse(endTime) < 6000
    requires Advances(duration, buffer)
    ensures var r := Grid(startTime, endTime, duration, buffer);
      forall i, j :: 0 <= i < j < |r| ==> StrLe(r[i].startTime, r[j].startTime)
  {
    var r := Grid(startTime, endTime, duration, buffer);
    var g := GridFrom(Parse(startTime), Parse(endTime), duration, buffer);
    GridCanonical(startTime, endTime, duration, buffer);
    GridTimes(startTime, endTime, duration, buffer);
    GridOrdered(Parse(startTime), Parse(endTime), duration, buffer);
    forall i, j | 0 <= i < j < |r| ensures StrLe(r[i].startTime, r[j].startTime) {
      assert g[i].start < g[j].start;
      CanonicalOrder(r[i].startTime, r[j].startTime);
    }
  }

  /** Canonical strings sort as their times do. */
  lemma CanonicalOrder(a: string, b: string)
    requires Canonical(a) && Canonical(b) && Parse(a) <= Parse(b)
    ensures StrLe(a, b)
  {
    var x, y := Parse(a), Parse(b);
    FormatOrder(x, y);
  }

  /** Six to ten in one-hour slots with no buffer: four slots back to back. */
  lemma BackToBackExample()
    ensures GridFrom(360, 600, 60, 0)
         == [Span(360, 420), Span(420, 480), Span(480, 540), Span(540, 600)]
  {
  }

  /** With a 15-minute buffer only three fit: a fourth would run 09:45 to 10:45. */
  lemma BufferedExample()
    ensures GridFrom(360, 600, 60, 15) == [Span(360, 420), Span(435, 495), Span(510, 570)]
  {
  }
}
