/** `splitTimezones`: bandwidth tuples that hold during a time window of the day are
    spread over the 48 half-hour slots (slot i is [i/2 h, i/2 h + 30 min) when i is even,
    and so on); each slot keeps, for every ordered pair of sites, the largest bandwidth
    any tuple covering that slot asked for. */
module Schedule {
  import opened Records

  /** The text after the hour digits of a label such as "11PM": the source only asks
      whether it contains "AM" or "PM". */
  datatype Suffix = Am | Pm | Bare

  /** An hour label: the number `parseInt` reads from its prefix, and its suffix. */
  datatype Label = Label(hour: int, suffix: Suffix)

  /** The two halves of a "<start>-<end>" range. */
  datatype TimeRange = TimeRange(start: Label, end: Label)

  /** One `CityConnectionTime` tuple: [timeRange, city1, city2, peakUpload, peakDownload]. */
  datatype TimedLink = TimedLink(range: TimeRange, city1: Site, city2: Site, peakUpload: int, peakDownload: int)

  /** A clock reading on the half-hour grid: `{ hour, minute }`. */
  datatype Time = Time(hour: int, minute: int)

  /** A label as the data writes them: "1AM" ... "12AM", "1PM" ... "12PM". */
  predicate WellFormed(l: Label) {
    1 <= l.hour <= 12 && l.suffix != Bare
  }

  /** Both ends of the tuple's range parse to an hour of the day: every well-formed label
      does, and so does a bare hour from 0 to 23. */
  predicate Timed(l: TimedLink) {
    0 <= ParseHour(l.range.start) < 24 && 0 <= ParseHour(l.range.end) < 24
  }

  /** `parseHourString`: "PM" adds twelve hours except to 12, and "12AM" is midnight; a
      well-formed label names an hour of the day, in the afternoon exactly when it says
      PM, and on the same twelve-hour dial. */
  function ParseHour(l: Label): (h: int)
    ensures WellFormed(l) ==> 0 <= h < 24 && (l.suffix == Pm <==> 12 <= h) && h % 12 == l.hour % 12
    ensures l.suffix == Bare ==> h == l.hour
  {
    if l.suffix == Pm && l.hour != 12 then l.hour + 12
    else if l.suffix == Am && l.hour == 12 then 0
    else l.hour
  }

  /** The label the data uses for an hour of the day: the partner of `ParseHour`. */
  function HourLabel(h: int): (l: Label)
    requires 0 <= h < 24
    ensures WellFormed(l)
  {
    if h == 0 then Label(12, Am)
    else if h < 12 then Label(h, Am)
    else if h == 12 then Label(12, Pm)
    else Label(h - 12, Pm)
  }

  /** Well-formed labels and hours of the day are in one-to-one correspondence. */
  lemma ParseHourRoundTrip(h: int, l: Label)
    requires 0 <= h < 24 && WellFormed(l)
    ensures ParseHour(HourLabel(h)) == h
    ensures HourLabel(ParseHour(l)) == l
  {
  }

  /** The four cases of the twelve-hour clock. */
  lemma ParseHourCases(k: int)
    requires 1 <= k <= 11
    ensures ParseHour(Label(12, Am)) == 0 && ParseHour(Label(12, Pm)) == 12
    ensures ParseHour(Label(k, Am)) == k && ParseHour(Label(k, Pm)) == k + 12
  {
  }

  predicate OnGrid(t: Time) {
    0 <= t.hour < 24 && (t.minute == 0 || t.minute == 30)
  }

  /** The clock reading at which slot i starts. */
  function TimeOf(i: int): Time {
    Time(i / 2, i % 2 * 30)
  }

  /** `getIntervalIndex`: two slots per hour, the second one from minute 30 on. Readings
      on the grid fall in slots 0 to 47. */
  function IntervalIndex(t: Time): (i: int)
    requires t.minute == 0 || t.minute == 30
    ensures OnGrid(t) ==> 0 <= i < 48
  {
    t.hour * 2 + t.minute / 30
  }

  /** Slots 0 to 47 and the readings on the grid correspond one to one. */
  lemma SlotRoundTrip(i: int, t: Time)
    requires 0 <= i < 48 && OnGrid(t)
    ensures OnGrid(TimeOf(i)) && IntervalIndex(TimeOf(i)) == i
    ensures TimeOf(IntervalIndex(t)) == t
  {
    if t.minute == 0 {
      assert IntervalIndex(t) == 2 * t.hour;
    } else {
      assert IntervalIndex(t) == 2 * t.hour + 1;
    }
  }

  /** The reading on the grid in slot 2h is h o'clock. */
  lemma OnTheHour(t: Time, h: int)
    requires OnGrid(t) && IntervalIndex(t) == 2 * h
    ensures t == Time(h, 0)
  {
    assert t.minute / 30 == if t.minute == 0 then 0 else 1;
  }

  /** `incrementHour`: half an hour later, wrapping from 23:30 to 00:00. (The hour is never
      negative here, so Dafny's `%` agrees with JavaScript's.) */
  function IncrementHour(t: Time): Time {
    if t.minute == 0 then Time(t.hour, 30) else Time((t.hour + 1) % 24, 0)
  }

  /** One increment moves to the next slot, modulo 48. */
  lemma IncrementAdvancesSlot(t: Time)
    requires OnGrid(t)
    ensures OnGrid(IncrementHour(t))
    ensures IntervalIndex(IncrementHour(t)) == (IntervalIndex(t) + 1) % 48
  {
    if t.minute == 0 {
      HalfPast(t);
    } else if t.hour == 23 {
      Midnight(t);
    } else {
      NextHour(t);
    }
  }

  lemma HalfPast(t: Time)
    requires 0 <= t.hour < 24 && t.minute == 0
    ensures IntervalIndex(IncrementHour(t)) == (IntervalIndex(t) + 1) % 48
  {
  }

  lemma Midnight(t: Time)
    requires t.hour == 23 && t.minute == 30
    ensures IntervalIndex(IncrementHour(t)) == (IntervalIndex(t) + 1) % 48
  {
  }

  lemma NextHour(t: Time)
    requires 0 <= t.hour < 23 && t.minute == 30
    ensures IntervalIndex(IncrementHour(t)) == (IntervalIndex(t) + 1) % 48
  {
    assert IncrementHour(t) == Time(t.hour + 1, 0);
    assert IntervalIndex(t) == 2 * t.hour + 1;
    assert IntervalIndex(Time(t.hour + 1, 0)) == 2 * t.hour + 2;
  }

  /** Going k < 48 slots forward from x lands on slot y exactly when k is the forward
      distance from x to y. */
  lemma ForwardDistance(x: int, k: int, y: int)
    requires 0 <= k < 48 && 0 <= y < 48
    ensures (x + k) % 48 == y <==> k == (y - x) % 48
  {
    if (x + k) % 48 == y {
      Lands(x, k, y);
    }
    if k == (y - x) % 48 {
      Reaches(x, y);
    }
  }

  /** Landing on slot y after k < 48 slots from x means k is the forward distance. */
  lemma Lands(x: int, k: int, y: int)
    requires 0 <= k < 48 && 0 <= y < 48 && (x + k) % 48 == y
    ensures k == (y - x) % 48
  {
    var q := (x + k) / 48;
    var p, d := (y - x) / 48, (y - x) % 48;
    assert x + k == 48 * q + y;
    assert y - x == 48 * p + d && 0 <= d < 48;
    assert k - d == 48 * (q + p);
  }

  /** Going the forward distance from x lands on slot y. */
  lemma Reaches(x: int, y: int)
    requires 0 <= y < 48
    ensures (x + (y - x) % 48) % 48 == y
  {
    var p, d := (y - x) / 48, (y - x) % 48;
    assert y - x == 48 * p + d && 0 <= d < 48;
    assert x + d == 48 * (-p) + y;
  }

  /** The slot after slot x, counted modulo 48. */
  lemma NextIndex(t: Time, s: int, k: int)
    requires OnGrid(t) && IntervalIndex(t) == SlotAfter(s, k)
    ensures OnGrid(IncrementHour(t)) && IntervalIndex(IncrementHour(t)) == SlotAfter(s, k + 1)
  {
    IncrementAdvancesSlot(t);
    ModSucc(s + k);
  }

  lemma ModSucc(x: int)
    ensures (x % 48 + 1) % 48 == (x + 1) % 48
  {
    var q, r := x / 48, x % 48;
    assert x == 48 * q + r && 0 <= r < 48;
    if r == 47 {
      assert x + 1 == 48 * (q + 1);
    } else {
      assert x + 1 == 48 * q + (r + 1);
    }
  }

  /** The number of slots between two hours, going forward around the clock. */
  function Span(start: int, end: int): (k: int)
    ensures 0 <= k < 48
  {
    (2 * end - 2 * start) % 48
  }

  /** The slot k slots after slot s. */
  function SlotAfter(s: int, k: int): int {
    (s + k) % 48
  }

  /** The k slots from slot s on, modulo 48. */
  function Walk(s: int, k: nat): (w: seq<int>)
    ensures |w| == k
    ensures forall j :: 0 <= j < k ==> w[j] == SlotAfter(s, j)
  {
    if k == 0 then [] else Walk(s, k - 1) + [SlotAfter(s, k - 1)]
  }

  /** The slots a tuple covers, in the order the source visits them. */
  function Window(l: TimedLink): seq<int>
    requires Timed(l)
  {
    Walk(2 * ParseHour(l.range.start), Span(ParseHour(l.range.start), ParseHour(l.range.end)))
  }

  /** A slot is walked exactly when it lies fewer than k slots after s, going forward. */
  lemma WalkMembers(s: int, k: nat, i: int)
    requires 0 <= s < 48 && k <= 48 && 0 <= i < 48
    ensures i in Walk(s, k) <==> (i - s) % 48 < k
  {
    var w := Walk(s, k);
    if i in w {
      var j :| 0 <= j < k && w[j] == i;
      ForwardDistance(s, j, i);
    }
    if (i - s) % 48 < k {
      var j := (i - s) % 48;
      ForwardDistance(s, j, i);
      assert w[j] == i;
    }
  }

  /** A walk of at most a full day visits no slot twice. */
  lemma WalkDistinct(s: int, k: nat, j: int, j': int)
    requires k <= 48 && 0 <= j < j' < k
    ensures Walk(s, k)[j] != Walk(s, k)[j']
  {
    var w := Walk(s, k);
    if w[j] == w[j'] {
      ForwardDistance(s + j, 0, w[j]);
      ForwardDistance(s + j, j' - j, w[j]);
    }
  }

  /** A range covers the slots from twice its start hour up to, but not including, twice
      its end hour, going forward around the clock. */
  lemma WindowMembers(l: TimedLink, i: int)
    requires Timed(l) && 0 <= i < 48
    ensures var s, e := ParseHour(l.range.start), ParseHour(l.range.end);
            i in Window(l) <==> (i - 2 * s) % 48 < (2 * e - 2 * s) % 48
  {
    HoursMembers(ParseHour(l.range.start), ParseHour(l.range.end), i);
  }

  /** The walk from hour s to hour e covers slot i exactly when i lies in [2s, 2e) going
      round the clock. */
  lemma HoursMembers(s: int, e: int, i: int)
    requires 0 <= s < 24 && 0 <= e < 24 && 0 <= i < 48
    ensures i in Walk(2 * s, Span(s, e)) <==> (i - 2 * s) % 48 < (2 * e - 2 * s) % 48
  {
    WalkMembers(2 * s, Span(s, e), i);
  }

  /** A range that ends where it starts covers nothing. */
  lemma EmptyWindow(l: TimedLink)
    requires Timed(l) && ParseHour(l.range.start) == ParseHour(l.range.end)
    ensures Window(l) == []
  {
  }

  /** "11PM-1AM" wraps past midnight: 23:00, 23:30, 00:00 and 00:30. */
  lemma WrapsPastMidnight(l: TimedLink)
    requires l.range == TimeRange(Label(11, Pm), Label(1, Am))
    ensures Window(l) == [46, 47, 0, 1]
  {
    var s, e := ParseHour(l.range.start), ParseHour(l.range.end);
    assert s == 23 && e == 1 && Span(s, e) == 4;
    var w := Window(l);
    assert |w| == 4 && w[0] == 46 && w[1] == 47 && w[2] == 0 && w[3] == 1;
  }

  /** "13-15" has no AM or PM: the hours are taken as they are, 13:00 to 15:00. */
  lemma BareHours(l: TimedLink)
    requires l.range == TimeRange(Label(13, Bare), Label(15, Bare))
    ensures Timed(l) && Window(l) == [26, 27, 28, 29]
  {
    var s, e := ParseHour(l.range.start), ParseHour(l.range.end);
    assert s == 13 && e == 15 && Span(s, e) == 4;
    var w := Window(l);
    assert |w| == 4 && w[0] == 26 && w[1] == 27 && w[2] == 28 && w[3] == 29;
  }

  /** `requirements[a][b] || 0`: a missing row or entry reads as 0. */
  function Lookup(m: Matrix, a: Site, b: Site): int {
    if a in m && b in m[a].vals then m[a].vals[b] else 0
  }

  /** `m[x][y] = Math.max(v, m[x][y] || 0)`, creating row x first when it is missing. */
  function Raise(m: Matrix, x: Site, y: Site, v: int): (r: Matrix)
    requires ValidMatrix(m)
    ensures ValidMatrix(r)
    ensures forall c :: c in r <==> c in m || c == x
  {
    var row := if x in m then m[x] else EmptyRec();
    m[x := row.Put(y, Max(v, Lookup(m, x, y)))]
  }

  /** Raising one entry changes that entry only, to the larger of the two values. */
  lemma RaiseLookup(m: Matrix, x: Site, y: Site, v: int, a: Site, b: Site)
    requires ValidMatrix(m)
    ensures Lookup(Raise(m, x, y, v), a, b) == if a == x && b == y then Max(v, Lookup(m, a, b)) else Lookup(m, a, b)
  {
    var row := if x in m then m[x] else EmptyRec();
    if a == x {
      assert row.Put(y, Max(v, Lookup(m, x, y))).Get(b) == if b == y then Some(Max(v, Lookup(m, a, b))) else row.Get(b);
    }
  }

  /** The body of the walk for one slot: [city1][city2] raised to the upload, then
      [city2][city1] to the download. (The source creates both rows before either
      write; the outer map has no order, so creating each row at its write is the
      same.) */
  function Merge(m: Matrix, a: Site, b: Site, up: int, down: int): (r: Matrix)
    requires ValidMatrix(m)
    ensures ValidMatrix(r)
    ensures forall c :: c in r <==> c in m || c == a || c == b
  {
    Raise(Raise(m, a, b, up), b, a, down)
  }

  /** What one tuple asks of the ordered pair (a, b) in a slot it covers. */
  function Offer(l: TimedLink, a: Site, b: Site): int {
    Max(if l.city1 == a && l.city2 == b then l.peakUpload else 0,
        if l.city2 == a && l.city1 == b then l.peakDownload else 0)
  }

  /** Values only rise, and an entry that was not
      negative becomes the larger of itself and what the tuple offers. */
  lemma MergeLookup(m: Matrix, l: TimedLink, a: Site, b: Site)
    requires ValidMatrix(m)
    ensures var r := Merge(m, l.city1, l.city2, l.peakUpload, l.peakDownload);
            && Lookup(r, a, b) >= Lookup(m, a, b)
            && (Lookup(m, a, b) >= 0 ==> Lookup(r, a, b) == Max(Lookup(m, a, b), Offer(l, a, b)))
  {
    var m' := Raise(m, l.city1, l.city2, l.peakUpload);
    RaiseLookup(m, l.city1, l.city2, l.peakUpload, a, b);
    RaiseLookup(m', l.city2, l.city1, l.peakDownload, a, b);
  }

  ghost predicate AllValid(slots: seq<Matrix>) {
    forall i :: 0 <= i < |slots| ==> ValidMatrix(slots[i])
  }

  /** One pass of the walk: slot i merged with the tuple. */
  function Stamp(slots: seq<Matrix>, l: TimedLink, i: int): (r: seq<Matrix>)
    requires AllValid(slots) && 0 <= i < |slots|
    ensures AllValid(r) && |r| == |slots|
  {
    slots[i := Merge(slots[i], l.city1, l.city2, l.peakUpload, l.peakDownload)]
  }

  /** The walk over the slots w, one stamp after the other. */
  function StampAll(slots: seq<Matrix>, l: TimedLink, w: seq<int>): (r: seq<Matrix>)
    requires AllValid(slots) && forall j :: 0 <= j < |w| ==> 0 <= w[j] < |slots|
    ensures AllValid(r) && |r| == |slots|
  {
    if w == [] then slots else Stamp(StampAll(slots, l, w[..|w| - 1]), l, w[|w| - 1])
  }

  /** One more step of a walk stamps one more slot. */
  lemma WalkStep(slots: seq<Matrix>, l: TimedLink, s: int, k: nat)
    requires AllValid(slots) && |slots| == 48
    ensures StampAll(slots, l, Walk(s, k + 1)) == Stamp(StampAll(slots, l, Walk(s, k)), l, SlotAfter(s, k))
  {
    assert Walk(s, k + 1)[..k] == Walk(s, k);
  }

  /** A walk that visits no slot twice merges the tuple once into every slot it visits
      and leaves every other slot as it was. */
  lemma {:induction false} StampAllAt(slots: seq<Matrix>, l: TimedLink, w: seq<int>, i: int)
    requires AllValid(slots) && forall j :: 0 <= j < |w| ==> 0 <= w[j] < |slots|
    requires forall j, j' :: 0 <= j < j' < |w| ==> w[j] != w[j']
    requires 0 <= i < |slots|
    ensures StampAll(slots, l, w)[i] == if i in w then Merge(slots[i], l.city1, l.city2, l.peakUpload, l.peakDownload) else slots[i]
  {
    if w != [] {
      var w' := w[..|w| - 1];
      StampAllAt(slots, l, w', i);
      assert i in w <==> i in w' || i == w[|w| - 1];
      if i == w[|w| - 1] {
        assert i !in w';
      }
    }
  }

  /** One tuple spread over its window. */
  function Spread(slots: seq<Matrix>, l: TimedLink): (r: seq<Matrix>)
    requires AllValid(slots) && |slots| == 48 && Timed(l)
    ensures AllValid(r) && |r| == 48
  {
    StampAll(slots, l, Window(l))
  }

  /** A tuple raises exactly the slots of its window. */
  lemma SpreadAt(slots: seq<Matrix>, l: TimedLink, i: int)
    requires AllValid(slots) && |slots| == 48 && Timed(l) && 0 <= i < 48
    ensures Spread(slots, l)[i] == if i in Window(l) then Merge(slots[i], l.city1, l.city2, l.peakUpload, l.peakDownload) else slots[i]
  {
    var s, e := ParseHour(l.range.start), ParseHour(l.range.end);
    forall j, j' | 0 <= j < j' < |Window(l)|
      ensures Window(l)[j] != Window(l)[j']
    {
      WalkDistinct(2 * s, Span(s, e), j, j');
    }
    StampAllAt(slots, l, Window(l), i);
  }

  /** 48 empty slots: the map as the source initialises it. */
  function EmptyDay(): (r: seq<Matrix>)
    ensures AllValid(r) && |r| == 48
  {
    seq(48, i => map[])
  }

  /** The whole day after the tuples of `data`, in order. */
  function ScheduleOf(data: seq<TimedLink>): (r: seq<Matrix>)
    requires forall k :: 0 <= k < |data| ==> Timed(data[k])
    ensures AllValid(r) && |r| == 48
  {
    if data == [] then EmptyDay() else Spread(ScheduleOf(data[..|data| - 1]), data[|data| - 1])
  }

  /** Reference for one slot and one ordered pair: the largest bandwidth any tuple
      covering the slot offers the pair, and 0 when none does. */
  function Peak(data: seq<TimedLink>, i: int, a: Site, b: Site): int
    requires forall k :: 0 <= k < |data| ==> Timed(data[k])
  {
    if data == [] then 0
    else
      var l := data[|data| - 1];
      Max(Peak(data[..|data| - 1], i, a, b), if i in Window(l) then Offer(l, a, b) else 0)
  }

  /** Every stored bandwidth is the peak the covering tuples ask for, so none is
      negative. */
  lemma {:induction false} ScheduleIsPeak(data: seq<TimedLink>, i: int, a: Site, b: Site)
    requires forall k :: 0 <= k < |data| ==> Timed(data[k])
    requires 0 <= i < 48
    ensures Lookup(ScheduleOf(data)[i], a, b) == Peak(data, i, a, b) >= 0
  {
    if data != [] {
      var prev, l := data[..|data| - 1], data[|data| - 1];
      ScheduleIsPeak(prev, i, a, b);
      SpreadAt(ScheduleOf(prev), l, i);
      if i in Window(l) {
        MergeLookup(ScheduleOf(prev)[i], l, a, b);
      }
    }
  }

  /** Walking one tuple over a day of slots, in place. */
  method SpreadLink(slots: array<Matrix>, l: TimedLink)
    requires slots.Length == 48 && AllValid(slots[..]) && Timed(l)
    modifies slots
    ensures slots[..] == Spread(old(slots[..]), l)
  {
    var start, end := ParseHour(l.range.start), ParseHour(l.range.end);
    WalkFrom(slots, l, start, end);
  }

  method WalkFrom(slots: array<Matrix>, l: TimedLink, start: int, end: int)
    requires slots.Length == 48 && AllValid(slots[..])
    requires 0 <= start < 24 && 0 <= end < 24
    modifies slots
    ensures slots[..] == StampAll(old(slots[..]), l, Walk(2 * start, Span(start, end)))
  {
    var hour, minute := start, 0;
    ghost var k := 0;
    while hour != end || minute != 0
      invariant 0 <= k <= Span(start, end)
      invariant At(Time(hour, minute), start, k)
      invariant AllValid(old(slots[..]))
      invariant slots[..] == StampAll(old(slots[..]), l, Walk(2 * start, k))
      decreases Span(start, end) - k
    {
      Advance(Time(hour, minute), start, end, k);
      var i := IntervalIndex(Time(hour, minute));
      slots[i] := Merge(slots[i], l.city1, l.city2, l.peakUpload, l.peakDownload);
      var next := IncrementHour(Time(hour, minute));
      hour, minute := next.hour, next.minute;
      WalkStep(old(slots[..]), l, 2 * start, k);
      k := k + 1;
    }
    Arrives(Time(hour, minute), start, end, k);
  }

  /** The loop's reading is on the grid, k slots after the start hour. */
  predicate At(t: Time, start: int, k: int) {
    OnGrid(t) && IntervalIndex(t) == SlotAfter(2 * start, k)
  }

  /** A reading short of the end hour has a step left, and one increment keeps it k + 1 slots on. */
  lemma Advance(t: Time, start: int, end: int, k: int)
    requires 0 <= start < 24 && 0 <= end < 24 && 0 <= k <= Span(start, end)
    requires At(t, start, k) && t != Time(end, 0)
    ensures k < Span(start, end) && OnGrid(t) && IntervalIndex(t) == SlotAfter(2 * start, k)
    ensures At(IncrementHour(t), start, k + 1)
  {
    StopsAtEnd(t, start, end, k);
    NextIndex(t, 2 * start, k);
  }

  /** A reading at the end hour has walked the whole span. */
  lemma Arrives(t: Time, start: int, end: int, k: int)
    requires 0 <= start < 24 && 0 <= end < 24 && 0 <= k <= Span(start, end)
    requires At(t, start, k) && t == Time(end, 0)
    ensures k == Span(start, end)
  {
    StopsAtEnd(t, start, end, k);
  }

  /** The walk's reading after k steps is the end exactly when k is the span. */
  lemma StopsAtEnd(t: Time, start: int, end: int, k: int)
    requires 0 <= start < 24 && 0 <= end < 24 && 0 <= k <= Span(start, end)
    requires OnGrid(t) && IntervalIndex(t) == SlotAfter(2 * start, k)
    ensures t == Time(end, 0) <==> k == Span(start, end)
  {
    if t == Time(end, 0) {
      AtEndAfterSpan(t, start, end, k);
    }
    if k == Span(start, end) {
      SpanReachesEnd(t, start, end, k);
    }
  }

  lemma AtEndAfterSpan(t: Time, start: int, end: int, k: int)
    requires 0 <= start < 24 && 0 <= end < 24 && 0 <= k < 48
    requires t == Time(end, 0) && IntervalIndex(t) == SlotAfter(2 * start, k)
    ensures k == Span(start, end)
  {
    Lands(2 * start, k, 2 * end);
  }

  lemma SpanReachesEnd(t: Time, start: int, end: int, k: int)
    requires 0 <= start < 24 && 0 <= end < 24 && k == Span(start, end)
    requires OnGrid(t) && IntervalIndex(t) == SlotAfter(2 * start, k)
    ensures t == Time(end, 0)
  {
    assert IntervalIndex(t) == 2 * end by {
      Reaches(2 * start, 2 * end);
    }
    OnTheHour(t, end);
  }

  /** `splitTimezones`: 48 slots, each the peak of the tuples that cover it. */
  method SplitTimezones(data: seq<TimedLink>) returns (result: array<Matrix>)
    requires forall k :: 0 <= k < |data| ==> Timed(data[k])
    ensures fresh(result) && result.Length == 48
    ensures result[..] == ScheduleOf(data)
  {
    result := new Matrix[48](i => map[]);
    assert result[..] == EmptyDay();
    for k := 0 to |data|
      invariant result[..] == ScheduleOf(data[..k])
    {
      assert data[..k + 1][..k] == data[..k];
      SpreadLink(result, data[k]);
    }
    assert data[..|data|] == data;
  }
}
