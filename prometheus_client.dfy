/**
 * PrometheusClient: the Prometheus duration string for a TimeSpan, the request
 * parameters each query assembles, and the request URLs and form bodies built from them.
 */
module PrometheusClient {
  import opened Wrappers
  import opened Strings
  import opened QueryString

  type Int64 = x: int | -0x8000_0000_0000_0000 <= x < 0x8000_0000_0000_0000

  /** A TimeSpan: a signed 64-bit count of 100-nanosecond ticks. */
  datatype TimeSpan = TimeSpan(ticks: Int64)

  const TicksPerMillisecond: int := 10_000
  const TicksPerSecond: int := 10_000_000
  const TicksPerMinute: int := 600_000_000
  const TicksPerHour: int := 36_000_000_000
  const TicksPerDay: int := 864_000_000_000

  /** C#'s integer division, which truncates toward zero. */
  function Quot(a: int, b: int): (q: int)
    requires b > 0
    ensures a >= 0 ==> 0 <= q * b <= a < q * b + b
    ensures a < 0 ==> q * b - b < a <= q * b <= 0
  {
    DivBounds(if a >= 0 then a else -a, b);
    if a >= 0 then a / b else -((-a) / b)
  }

  /** Euclidean division of a non-negative number by a positive one. */
  lemma DivBounds(a: nat, b: int)
    requires b > 0
    ensures 0 <= a / b && 0 <= (a / b) * b <= a < (a / b) * b + b
    ensures -((a / b) * b) == (-(a / b)) * b
  {
    assert a == (a / b) * b + a % b;
  }

  /** C#'s remainder, which takes the sign of the dividend. */
  function Rem(a: int, b: int): (r: int)
    requires b > 0
    ensures Quot(a, b) * b + r == a
    ensures a >= 0 ==> 0 <= r < b
    ensures a < 0 ==> -b < r <= 0
  {
    if a >= 0 then a % b else -((-a) % b)
  }

  /**
   * The TimeSpan component properties. Each truncates toward zero, so every component
   * of a negative duration is zero or negative.
   */
  function Days(t: TimeSpan): (d: int)
    ensures t.ticks >= 0 ==> 0 <= d * TicksPerDay <= t.ticks < d * TicksPerDay + TicksPerDay
    ensures t.ticks < 0 ==> d * TicksPerDay - TicksPerDay < t.ticks <= d * TicksPerDay <= 0
  {
    Quot(t.ticks, TicksPerDay)
  }

  function Hours(t: TimeSpan): (h: int)
    ensures t.ticks >= 0 ==> 0 <= h < 24
    ensures t.ticks < 0 ==> -24 < h <= 0
  {
    Rem(Quot(t.ticks, TicksPerHour), 24)
  }

  function Minutes(t: TimeSpan): (m: int)
    ensures t.ticks >= 0 ==> 0 <= m < 60
    ensures t.ticks < 0 ==> -60 < m <= 0
  {
    Rem(Quot(t.ticks, TicksPerMinute), 60)
  }

  function Seconds(t: TimeSpan): (sc: int)
    ensures t.ticks >= 0 ==> 0 <= sc < 60
    ensures t.ticks < 0 ==> -60 < sc <= 0
  {
    Rem(Quot(t.ticks, TicksPerSecond), 60)
  }

  function Milliseconds(t: TimeSpan): (l: int)
    ensures t.ticks >= 0 ==> 0 <= l < 1000
    ensures t.ticks < 0 ==> -1000 < l <= 0
  {
    Rem(Quot(t.ticks, TicksPerMillisecond), 1000)
  }

  /** The whole number of milliseconds in a non-negative duration. */
  function WholeMilliseconds(t: TimeSpan): int { Quot(t.ticks, TicksPerMillisecond) }

  /** "{n}{unit}" when n is positive, nothing otherwise. */
  function Part(n: int, unit: string): (p: string)
    ensures p == [] <==> n <= 0
  {
    if n > 0 then NatToDecimal(n) + unit else []
  }

  /** The text ToPrometheusDuration returns: empty exactly when no component is positive. */
  function DurationText(t: TimeSpan): (text: string)
    ensures text == [] <==> Days(t) <= 0 && Hours(t) <= 0 && Minutes(t) <= 0 && Seconds(t) <= 0
                            && Milliseconds(t) <= 0
  {
    Part(Days(t), "d") + (Part(Hours(t), "h") + (Part(Minutes(t), "m") + (Part(Seconds(t), "s")
    + Part(Milliseconds(t), "ms"))))
  }

  lemma ConcatSnoc(parts: seq<string>, x: string)
    ensures Concat(parts + [x]) == Concat(parts) + x
  {
    if parts == [] {
      assert [] + [x] == [x];
    } else {
      assert (parts + [x])[1..] == parts[1..] + [x];
      ConcatSnoc(parts[1..], x);
    }
  }

  lemma Regroup(p1: string, p2: string, p3: string, p4: string, p5: string)
    ensures [] + p1 + p2 + p3 + p4 + p5 == p1 + (p2 + (p3 + (p4 + p5)))
  {
  }

  /** Appends "{n}{unit}" to parts when n is positive. */
  method AddPart(parts: seq<string>, n: int, unit: string) returns (parts': seq<string>)
    ensures Concat(parts') == Concat(parts) + Part(n, unit)
  {
    parts' := parts;
    if n > 0 {
      ConcatSnoc(parts, NatToDecimal(n) + unit);
      parts' := parts + [NatToDecimal(n) + unit];
    }
  }

  /**
   * ToPrometheusDuration: collects "{Days}d", "{Hours}h", "{Minutes}m", "{Seconds}s"
   * and "{Milliseconds}ms" for those components that are positive, in that order, and joins them.
   */
  method ToPrometheusDuration(duration: TimeSpan) returns (text: string)
    ensures text == DurationText(duration)
  {
    var parts: seq<string> := [];
    parts := AddPart(parts, Days(duration), "d");
    parts := AddPart(parts, Hours(duration), "h");
    parts := AddPart(parts, Minutes(duration), "m");
    parts := AddPart(parts, Seconds(duration), "s");
    parts := AddPart(parts, Milliseconds(duration), "ms");
    text := Concat(parts);
    Regroup(Part(Days(duration), "d"), Part(Hours(duration), "h"), Part(Minutes(duration), "m"),
            Part(Seconds(duration), "s"), Part(Milliseconds(duration), "ms"));
  }

  /** Each component of a non-negative duration, in terms of its whole seconds, minutes and hours. */
  lemma ComponentsOfMillis(t: TimeSpan)
    requires t.ticks >= 0
    ensures var ms := t.ticks / TicksPerMillisecond;
            var s := ms / 1000;
            var m := s / 60;
            var h := m / 60;
            && Milliseconds(t) == ms % 1000 && Seconds(t) == s % 60 && Minutes(t) == m % 60
            && Hours(t) == h % 24 && Days(t) == h / 24
  {
    var ms := t.ticks / TicksPerMillisecond;
    var s := ms / 1000;
    assert t.ticks / TicksPerSecond == s;
    var m := s / 60;
    assert t.ticks / TicksPerMinute == m;
    var h := m / 60;
    assert t.ticks / TicksPerHour == h;
    assert t.ticks / TicksPerDay == h / 24;
  }

  /**
   * For a non-negative duration: the components are the days (unbounded), hours,
   * minutes, seconds and milliseconds of its whole milliseconds.
   */
  lemma Components(t: TimeSpan)
    requires t.ticks >= 0
    ensures Days(t) >= 0 && 0 <= Hours(t) < 24 && 0 <= Minutes(t) < 60 && 0 <= Seconds(t) < 60
    ensures 0 <= Milliseconds(t) < 1000
    ensures Days(t) * 86_400_000 + Hours(t) * 3_600_000 + Minutes(t) * 60_000 + Seconds(t) * 1000
            + Milliseconds(t) == WholeMilliseconds(t)
  {
    ComponentsOfMillis(t);
    var ms := t.ticks / TicksPerMillisecond;
    var s := ms / 1000;
    var m := s / 60;
    var h := m / 60;
    assert ms == s * 1000 + ms % 1000;
    assert s == m * 60 + s % 60;
    assert m == h * 60 + m % 60;
    assert h == (h / 24) * 24 + h % 24;
  }

  /** A negative duration has no positive component and is written as the empty string. */
  lemma NegativeDurationIsEmpty(t: TimeSpan)
    requires t.ticks < 0
    ensures Days(t) <= 0 && Hours(t) <= 0 && Minutes(t) <= 0 && Seconds(t) <= 0 && Milliseconds(t) <= 0
    ensures DurationText(t) == []
  {
  }

  /** A duration shorter than one millisecond, zero included, is written as the empty string. */
  lemma SubMillisecondDurationIsEmpty(t: TimeSpan)
    requires t.ticks < TicksPerMillisecond
    ensures DurationText(t) == []
  {
    if t.ticks >= 0 {
      Components(t);
    }
  }

  /** Two durations with the same whole number of milliseconds are written the same. */
  lemma SubMillisecondsIgnored(t1: TimeSpan, t2: TimeSpan)
    requires WholeMilliseconds(t1) == WholeMilliseconds(t2)
    ensures DurationText(t1) == DurationText(t2)
  {
    if t1.ticks < TicksPerMillisecond || t2.ticks < TicksPerMillisecond {
      SubMillisecondDurationIsEmpty(t1);
      SubMillisecondDurationIsEmpty(t2);
    } else {
      ComponentsOfMillis(t1);
      ComponentsOfMillis(t2);
    }
  }

  /** The rank of a duration unit: 0 ms, 1 s, 2 m, 3 h, 4 d. */
  type Rank = r: int | 0 <= r < 5

  function UnitName(rank: Rank): string {
    ["ms", "s", "m", "h", "d"][rank]
  }

  function UnitMillis(rank: Rank): nat {
    [1, 1000, 60_000, 3_600_000, 86_400_000][rank]
  }

  /** The unit at the front of s, as its rank and its length; "ms" is tried before "m". */
  function UnitAt(s: string): (u: Option<(Rank, nat)>)
    ensures u.Some? ==> 1 <= u.value.1 <= |s|
  {
    if |s| >= 2 && s[0] == 'm' && s[1] == 's' then Some((0, 2))
    else if |s| >= 1 && s[0] == 's' then Some((1, 1))
    else if |s| >= 1 && s[0] == 'm' then Some((2, 1))
    else if |s| >= 1 && s[0] == 'h' then Some((3, 1))
    else if |s| >= 1 && s[0] == 'd' then Some((4, 1))
    else None
  }

  /** Reads number-unit segments whose units have strictly decreasing rank below `below`. */
  function ReadSegments(s: string, below: nat): Option<nat>
    decreases |s|
  {
    if s == [] then Some(0)
    else
      var k := LeadingDigits(s);
      if k == 0 then None
      else
        var n := DigitsValue(s[..k]);
        match UnitAt(s[k..])
        case None => None
        case Some((rank, len)) =>
          if rank >= below then None
          else
            match ReadSegments(s[k..][len..], rank)
            case None => None
            case Some(x) => Some(n * UnitMillis(rank) + x)
  }

  /**
   * A reader for the duration syntax the formatter writes (the d/h/m/s/ms subset of
   * Prometheus durations): the number of milliseconds it denotes; the empty string is refused.
   */
  function DurationMillis(s: string): Option<nat> {
    if s == [] then None else ReadSegments(s, 5)
  }

  predicate StartsWithDigit(s: string) {
    s == [] || IsDigit(s[0])
  }

  lemma ReadSegmentsLooser(s: string, rank: nat, below: nat)
    requires rank <= below && ReadSegments(s, rank).Some?
    ensures ReadSegments(s, below) == ReadSegments(s, rank)
  {
  }

  /** A unit name is recognised in front of a tail that starts with a digit. */
  lemma UnitAtName(rank: Rank, tail: string)
    requires StartsWithDigit(tail)
    ensures UnitAt(UnitName(rank) + tail) == Some((rank, |UnitName(rank)|))
  {
    var s := UnitName(rank) + tail;
    if rank == 2 {
      assert s[0] == 'm';
      assert |s| >= 2 ==> s[1] == tail[0];
    } else {
      assert s[0] == UnitName(rank)[0];
      assert rank == 0 ==> s[1] == 's';
    }
  }

  /** One step of the reader: a digit run worth n, a unit of lower rank, and the rest. */
  lemma ReadSegmentsStep(s: string, below: nat, k: nat, n: nat, rank: Rank, len: nat, tail: string, x: nat)
    requires s != [] && 0 < k == LeadingDigits(s) && DigitsValue(s[..k]) == n
    requires UnitAt(s[k..]) == Some((rank, len)) && rank < below
    requires s[k..][len..] == tail && ReadSegments(tail, rank) == Some(x)
    ensures ReadSegments(s, below) == Some(n * UnitMillis(rank) + x)
  {
  }

  /** Reading a positive number written in decimal, then a unit, in front of a readable tail. */
  lemma ReadSegment(n: nat, rank: Rank, tail: string, x: nat)
    requires n > 0
    requires StartsWithDigit(tail) && ReadSegments(tail, rank) == Some(x)
    ensures ReadSegments(NatToDecimal(n) + UnitName(rank) + tail, rank as nat + 1) == Some(n * UnitMillis(rank) + x)
  {
    var d := NatToDecimal(n);
    var unit := UnitName(rank);
    var rest := unit + tail;
    var s := d + unit + tail;
    assert s == d + rest;
    assert !IsDigit(rest[0]) by { assert rest[0] == unit[0]; }
    LeadingDigitsOfDecimal(n, rest);
    DigitsValueOfDecimal(n);
    assert s[..|d|] == d;
    assert s[|d|..] == rest;
    UnitAtName(rank, tail);
    assert rest[|unit|..] == tail;
    ReadSegmentsStep(s, rank as nat + 1, |d|, n, rank, |unit|, tail, x);
  }

  /** Text that can be read is empty or starts with a digit. */
  lemma ReadableStartsWithDigit(s: string, below: nat)
    requires ReadSegments(s, below).Some?
    ensures StartsWithDigit(s)
  {
  }

  /** Reading one written segment, or nothing for a count of zero, in front of a readable tail. */
  lemma ReadPart(n: nat, rank: Rank, tail: string, x: nat)
    requires ReadSegments(tail, rank) == Some(x)
    ensures ReadSegments(Part(n, UnitName(rank)) + tail, rank as nat + 1) == Some(n * UnitMillis(rank) + x)
  {
    if n == 0 {
      assert Part(n, UnitName(rank)) + tail == tail;
      ReadSegmentsLooser(tail, rank, rank as nat + 1);
    } else {
      ReadableStartsWithDigit(tail, rank);
      ReadSegment(n, rank, tail, x);
    }
  }

  /** Number-unit pairs written one after the other. */
  function Written(parts: seq<(nat, Rank)>): string {
    if parts == [] then [] else Part(parts[0].0, UnitName(parts[0].1)) + Written(parts[1..])
  }

  /** The milliseconds number-unit pairs stand for. */
  function Worth(parts: seq<(nat, Rank)>): nat {
    if parts == [] then 0 else parts[0].0 * UnitMillis(parts[0].1) + Worth(parts[1..])
  }

  /** Unit ranks strictly decreasing, all below `below`. */
  predicate Descending(parts: seq<(nat, Rank)>, below: nat) {
    parts == [] || (parts[0].1 < below && Descending(parts[1..], parts[0].1))
  }

  /** Written number-unit pairs, units in decreasing order, are read back as what they stand for. */
  lemma {:induction false} ReadWritten(parts: seq<(nat, Rank)>, below: nat)
    requires Descending(parts, below)
    ensures ReadSegments(Written(parts), below) == Some(Worth(parts))
  {
    if parts != [] {
      var (n, rank) := parts[0];
      var rest := parts[1..];
      assert Written(parts) == Part(n, UnitName(rank)) + Written(rest);
      assert Worth(parts) == n * UnitMillis(rank) + Worth(rest);
      ReadWritten(rest, rank);
      ReadPart(n, rank, Written(rest), Worth(rest));
      ReadSegmentsLooser(Written(parts), rank as nat + 1, below);
    }
  }

  /** A descending list of parts is read back as its worth. */
  lemma ReadDescending(parts: seq<(nat, Rank)>, text: string, millis: nat)
    requires Descending(parts, 5) && text == Written(parts) && millis == Worth(parts)
    ensures ReadSegments(text, 5) == Some(millis)
  {
    ReadWritten(parts, 5);
  }

  /** The five components, as number-unit pairs in decreasing unit order. */
  function ComponentParts(d: nat, h: nat, m: nat, sc: nat, l: nat): seq<(nat, Rank)> {
    [(d, 4), (h, 3), (m, 2), (sc, 1), (l, 0)]
  }

  /** The component list is descending and is written and worth what the formatter writes and means. */
  lemma WrittenComponents(d: nat, h: nat, m: nat, sc: nat, l: nat)
    ensures Descending(ComponentParts(d, h, m, sc, l), 5)
    ensures Written(ComponentParts(d, h, m, sc, l))
            == Part(d, "d") + (Part(h, "h") + (Part(m, "m") + (Part(sc, "s") + Part(l, "ms"))))
    ensures Worth(ComponentParts(d, h, m, sc, l)) == d * 86_400_000 + h * 3_600_000 + m * 60_000 + sc * 1000 + l
  {
    var p4: seq<(nat, Rank)> := [(l, 0)];
    var p3 := [(sc, 1)] + p4;
    var p2 := [(m, 2)] + p3;
    var p1 := [(h, 3)] + p2;
    var p0 := [(d, 4)] + p1;
    assert p0 == ComponentParts(d, h, m, sc, l);
    assert p0[1..] == p1 && p1[1..] == p2 && p2[1..] == p3 && p3[1..] == p4 && p4[1..] == [];
    ComponentsText(p0, p1, p2, p3, p4);
    assert Worth(p4) == l;
    assert Worth(p3) == sc * 1000 + Worth(p4);
    assert Worth(p2) == m * 60_000 + Worth(p3);
    assert Worth(p1) == h * 3_600_000 + Worth(p2);
    assert Worth(p0) == d * 86_400_000 + Worth(p1);
    assert Descending(p4, 1);
    assert Descending(p3, 2);
    assert Descending(p2, 3);
    assert Descending(p1, 4);
    assert Descending(p0, 5);
  }

  lemma ComponentsText(p0: seq<(nat, Rank)>, p1: seq<(nat, Rank)>, p2: seq<(nat, Rank)>,
                       p3: seq<(nat, Rank)>, p4: seq<(nat, Rank)>)
    requires |p0| == 5 && p0[1..] == p1 && p1[1..] == p2 && p2[1..] == p3 && p3[1..] == p4 && p4[1..] == []
    requires p0[0].1 == 4 && p1[0].1 == 3 && p2[0].1 == 2 && p3[0].1 == 1 && p4[0].1 == 0
    ensures Written(p0) == Part(p0[0].0, "d") + (Part(p1[0].0, "h") + (Part(p2[0].0, "m")
                           + (Part(p3[0].0, "s") + Part(p4[0].0, "ms"))))
  {
    assert UnitName(4) == "d" && UnitName(3) == "h" && UnitName(2) == "m" && UnitName(1) == "s" && UnitName(0) == "ms";
    assert Written(p4) == Part(p4[0].0, "ms") + [];
    assert Written(p3) == Part(p3[0].0, "s") + Written(p4);
    assert Written(p2) == Part(p2[0].0, "m") + Written(p3);
    assert Written(p1) == Part(p1[0].0, "h") + Written(p2);
    assert Written(p0) == Part(p0[0].0, "d") + Written(p1);
  }

  /** The millisecond count of a duration of at least one millisecond can be read back from its text. */
  lemma DurationRoundTrip(t: TimeSpan)
    requires t.ticks >= TicksPerMillisecond
    ensures DurationMillis(DurationText(t)) == Some(WholeMilliseconds(t))
  {
    Components(t);
    var parts := ComponentParts(Days(t), Hours(t), Minutes(t), Seconds(t), Milliseconds(t));
    WrittenComponents(Days(t), Hours(t), Minutes(t), Seconds(t), Milliseconds(t));
    ReadDescending(parts, DurationText(t), WholeMilliseconds(t));
    assert ReadSegments([], 5) == Some(0);
  }

  const BaseUrlPath := "/api/v1"
  const QueryUrlPath := "/query"
  const QueryRangeUrlPath := "/query_range"
  const LabelsUrlPath := "/labels"
  const LabelValuesUrlPath := "/label"

  /** The timeout pair, present only when a timeout is given. */
  function TimeoutPair(timeout: Option<TimeSpan>): seq<(string, Value)> {
    if timeout.Some? then [("timeout", Str(DurationText(timeout.value)))] else []
  }

  /** The keys of a list of pairs, in order. */
  function KeysOf(pairs: seq<(string, Value)>): (ks: seq<string>)
    ensures |ks| == |pairs| && forall i :: 0 <= i < |pairs| ==> ks[i] == pairs[i].0
  {
    seq(|pairs|, i requires 0 <= i < |pairs| => pairs[i].0)
  }

  /**
   * A collection initializer `new UriQueryStringParameterCollection { { k1, v1 }, ... }`:
   * a new collection with one Add per element, in order. With distinct keys the
   * collection holds exactly those pairs.
   */
  method Initialize(pairs: seq<(string, Value)>) returns (p: ParameterCollection)
    requires Distinct(KeysOf(pairs))
    ensures fresh(p) && p.Valid() && p.keys == KeysOf(pairs)
    ensures p.Pairs() == pairs
  {
    p := new ParameterCollection();
    var i := 0;
    while i < |pairs|
      invariant 0 <= i <= |pairs|
      invariant fresh(p) && p.Valid()
      invariant p.keys == KeysOf(pairs[..i])
      invariant p.Pairs() == pairs[..i]
    {
      forall j | 0 <= j < i
        ensures p.keys[j] != pairs[i].0
      {
        assert KeysOf(pairs)[j] != KeysOf(pairs)[i];
      }
      assert pairs[..i + 1] == pairs[..i] + [pairs[i]];
      assert KeysOf(pairs[..i + 1]) == KeysOf(pairs[..i]) + [pairs[i].0];
      p.Add(pairs[i].0, pairs[i].1);
      i := i + 1;
    }
    assert pairs[..i] == pairs;
  }

  /** The parameters of QueryAsync (and QueryPostAsync): query, time, then timeout when one is given. */
  method QueryParameters(query: string, timestamp: DateTime, timeout: Option<TimeSpan>)
    returns (p: ParameterCollection)
    ensures fresh(p) && p.Valid()
    ensures p.Pairs() == [("query", Str(query)), ("time", Time(timestamp))] + TimeoutPair(timeout)
  {
    assert KeysOf([("query", Str(query)), ("time", Time(timestamp))]) == ["query", "time"];
    assert "query"[0] != "time"[0];
    p := Initialize([("query", Str(query)), ("time", Time(timestamp))]);
    assert "timeout" !in p.keys by { assert |"timeout"| != |"time"| && "timeout"[0] != "query"[0]; }
    AddTimeout(p, timeout);
  }

  /** Adds the timeout parameter, the duration text, when a timeout is given. */
  method AddTimeout(p: ParameterCollection, timeout: Option<TimeSpan>)
    requires p.Valid() && "timeout" !in p.keys
    modifies p
    ensures p.Valid() && p.Pairs() == old(p.Pairs()) + TimeoutPair(timeout)
  {
    if timeout.Some? {
      var duration := ToPrometheusDuration(timeout.value);
      AddNew(p, "timeout", Str(duration));
    } else {
      assert old(p.Pairs()) + [] == old(p.Pairs());
    }
  }

  /** The parameters of QueryRangeAsync (and QueryRangePostAsync); step is step.TotalSeconds. */
  method QueryRangeParameters(query: string, start: DateTime, end: DateTime, step: Double,
                              timeout: Option<TimeSpan>)
    returns (p: ParameterCollection)
    ensures fresh(p) && p.Valid()
    ensures p.Pairs() == [("query", Str(query)), ("start", Time(start)), ("end", Time(end)), ("step", Num(step))]
                         + TimeoutPair(timeout)
  {
    var initial := [("query", Str(query)), ("start", Time(start)), ("end", Time(end)), ("step", Num(step))];
    RangeKeysDistinct();
    assert KeysOf(initial) == ["query", "start", "end", "step"];
    p := Initialize(initial);
    assert "timeout" !in p.keys by {
      assert "timeout"[0] != "query"[0] && "timeout"[0] != "start"[0] && "timeout"[0] != "end"[0];
      assert "timeout"[0] != "step"[0];
    }
    AddTimeout(p, timeout);
  }

  lemma RangeKeysDistinct()
    ensures Distinct(["query", "start", "end", "step"])
  {
    var ks := ["query", "start", "end", "step"];
    assert ks[0][0] == 'q' && ks[1][0] == 's' && ks[2][0] == 'e' && ks[3][0] == 's';
    assert |ks[1]| != |ks[3]|;
  }

  /** One match[] pair per selector, in input order; none for a null selector list. */
  function MatchPairs(selectors: Option<seq<string>>): (ps: seq<(string, Value)>)
  {
    if selectors.None? then []
    else seq(|selectors.value|, i requires 0 <= i < |selectors.value| => ("match[]", Str(selectors.value[i])))
  }

  lemma MatchPairsSnoc(labels: seq<string>, i: nat)
    requires i < |labels|
    ensures MatchPairs(Some(labels[..i + 1])) == MatchPairs(Some(labels[..i])) + [("match[]", Str(labels[i]))]
  {
  }

  /** start and end, present only when both are given. */
  function RangePairs(start: Option<DateTime>, end: Option<DateTime>): seq<(string, Value)> {
    if start.Some? && end.Some? then [("start", Time(start.value)), ("end", Time(end.value))] else []
  }

  /** The match[] parameters: one Add per selector, in order. */
  method MatchParameters(selectors: Option<seq<string>>) returns (p: ParameterCollection)
    ensures fresh(p) && p.Valid() && (p.keys == [] || p.keys == ["match[]"])
    ensures p.Pairs() == MatchPairs(selectors)
  {
    p := new ParameterCollection();
    if selectors.Some? && |selectors.value| > 0 {
      var labels := selectors.value;
      var i := 0;
      while i < |labels|
        invariant 0 <= i <= |labels|
        invariant fresh(p) && p.Valid()
        invariant p.keys == if i == 0 then [] else ["match[]"]
        invariant p.Pairs() == MatchPairs(Some(labels[..i]))
      {
        MatchPairsSnoc(labels, i);
        p.Add("match[]", Str(labels[i]));
        i := i + 1;
      }
      assert labels[..i] == labels;
    }
  }

  /** Adds a key the collection does not hold yet: its pair goes last. */
  method AddNew(p: ParameterCollection, key: string, value: Value)
    requires p.Valid() && key !in p.keys
    modifies p
    ensures p.Valid() && p.keys == old(p.keys) + [key]
    ensures p.Pairs() == old(p.Pairs()) + [(key, value)]
  {
    p.Add(key, value);
  }

  /** Adds start and then end to a collection that holds neither key. */
  method AddTimeRange(p: ParameterCollection, start: DateTime, end: DateTime)
    requires p.Valid() && "start" !in p.keys && "end" !in p.keys
    modifies p
    ensures p.Valid()
    ensures p.Pairs() == old(p.Pairs()) + [("start", Time(start)), ("end", Time(end))]
  {
    AddNew(p, "start", Time(start));
    assert "end" !in p.keys by { assert "end"[0] != "start"[0]; }
    AddNew(p, "end", Time(end));
  }

  /** The parameters of the label queries: match[] per selector, then start and end when both are given. */
  method LabelParameters(selectors: Option<seq<string>>, start: Option<DateTime>, end: Option<DateTime>)
    returns (p: ParameterCollection)
    ensures fresh(p) && p.Valid()
    ensures p.Pairs() == MatchPairs(selectors) + RangePairs(start, end)
  {
    p := MatchParameters(selectors);
    if start.Some? && end.Some? {
      assert "start" != "match[]" && "end" != "match[]" by {
        assert "start"[0] != "match[]"[0] && "end"[0] != "match[]"[0];
      }
      AddTimeRange(p, start.value, end.value);
    }
  }

  const QueryPath := BaseUrlPath + QueryUrlPath
  const QueryRangePath := BaseUrlPath + QueryRangeUrlPath
  const LabelsPath := BaseUrlPath + LabelsUrlPath

  /** The label key is inserted into the path as given. */
  function LabelValuesPath(labelKey: string): string {
    BaseUrlPath + LabelValuesUrlPath + "/" + labelKey + "/values"
  }

  lemma PathsHaveNoQuestionMark()
    ensures '?' !in QueryPath && '?' !in QueryRangePath && '?' !in LabelsPath
  {
    assert QueryPath == "/api/v1/query";
    assert QueryRangePath == "/api/v1/query_range";
    assert LabelsPath == "/api/v1/labels";
  }

  /** A URL made of a path without '?', one '?', and a query: it splits into the two. */
  lemma SplitUri(path: string, q: string)
    requires '?' !in path && '?' !in q
    ensures Split(path + "?" + q, '?') == [path, q]
  {
    SplitAtSeparator(path, '?', q);
    SplitWithoutSeparator(q, '?');
  }

  /** A URL whose '?' and query are present only when the query is not empty. */
  lemma SplitOptionalUri(path: string, q: string)
    requires '?' !in path && '?' !in q
    ensures var uri := path + (if q != [] then "?" + q else []);
            && Split(uri, '?')[0] == path
            && ('?' in uri <==> q != [])
            && (q == [] ==> uri == path)
            && (q != [] ==> Split(uri, '?') == [path, q])
  {
    if q != [] {
      assert path + ("?" + q) == path + "?" + q;
      SplitUri(path, q);
    } else {
      assert path + [] == path;
      SplitWithoutSeparator(path, '?');
    }
  }

  /** The texts of the QueryAsync parameters. */
  lemma QueryTexts(query: string, timestamp: DateTime, timeout: Option<TimeSpan>)
    ensures Canonical([("query", Str(query)), ("time", Time(timestamp))] + TimeoutPair(timeout))
            == [("query", query), ("time", timestamp.iso)]
               + (if timeout.Some? then [("timeout", DurationText(timeout.value))] else [])
  {
  }

  /** The texts of the QueryRangeAsync parameters. */
  lemma QueryRangeTexts(query: string, start: DateTime, end: DateTime, step: Double, timeout: Option<TimeSpan>)
    ensures Canonical([("query", Str(query)), ("start", Time(start)), ("end", Time(end)), ("step", Num(step))]
                      + TimeoutPair(timeout))
            == [("query", query), ("start", start.iso), ("end", end.iso), ("step", step.literal)]
               + (if timeout.Some? then [("timeout", DurationText(timeout.value))] else [])
  {
  }

  /**
   * The GET URL of QueryAsync: the query path, one "?", and a query string that reads
   * back as query, time and (when given) timeout, in that order.
   */
  method QueryRequestUri(query: string, timestamp: DateTime, timeout: Option<TimeSpan>) returns (uri: string)
    ensures |Split(uri, '?')| == 2 && Split(uri, '?')[0] == QueryPath
    ensures ParseQuery(Split(uri, '?')[1]) ==
      Some([("query", query), ("time", timestamp.iso)]
           + (if timeout.Some? then [("timeout", DurationText(timeout.value))] else []))
  {
    var p := QueryParameters(query, timestamp, timeout);
    var q := p.ToString();
    uri := QueryPath + "?" + q;
    PathsHaveNoQuestionMark();
    SplitUri(QueryPath, q);
    QueryTexts(query, timestamp, timeout);
  }

  /** The GET URL of QueryRangeAsync: query, start, end, step and (when given) timeout. */
  method QueryRangeRequestUri(query: string, start: DateTime, end: DateTime, step: Double,
                              timeout: Option<TimeSpan>) returns (uri: string)
    ensures |Split(uri, '?')| == 2 && Split(uri, '?')[0] == QueryRangePath
    ensures ParseQuery(Split(uri, '?')[1]) ==
      Some([("query", query), ("start", start.iso), ("end", end.iso), ("step", step.literal)]
           + (if timeout.Some? then [("timeout", DurationText(timeout.value))] else []))
  {
    var p := QueryRangeParameters(query, start, end, step, timeout);
    var q := p.ToString();
    uri := QueryRangePath + "?" + q;
    PathsHaveNoQuestionMark();
    SplitUri(QueryRangePath, q);
    QueryRangeTexts(query, start, end, step, timeout);
  }

  /** The form body of QueryPostAsync: it reads back as query, time and (when given) timeout. */
  method QueryPostBody(query: string, timestamp: DateTime, timeout: Option<TimeSpan>) returns (body: string)
    ensures body != []
    ensures ParseQuery(body) ==
      Some([("query", query), ("time", timestamp.iso)]
           + (if timeout.Some? then [("timeout", DurationText(timeout.value))] else []))
  {
    var p := QueryParameters(query, timestamp, timeout);
    body := p.ToString();
    QueryTexts(query, timestamp, timeout);
  }

  /** The form body of QueryRangePostAsync: query, start, end, step and (when given) timeout. */
  method QueryRangePostBody(query: string, start: DateTime, end: DateTime, step: Double,
                            timeout: Option<TimeSpan>) returns (body: string)
    ensures body != []
    ensures ParseQuery(body) ==
      Some([("query", query), ("start", start.iso), ("end", end.iso), ("step", step.literal)]
           + (if timeout.Some? then [("timeout", DurationText(timeout.value))] else []))
  {
    var p := QueryRangeParameters(query, start, end, step, timeout);
    body := p.ToString();
    QueryRangeTexts(query, start, end, step, timeout);
  }

  /** The texts the label queries send: one match[] per selector, then start and end when both are given. */
  function LabelTexts(selectors: Option<seq<string>>, start: Option<DateTime>, end: Option<DateTime>)
    : seq<(string, string)>
  {
    (if selectors.None? then []
     else seq(|selectors.value|, i requires 0 <= i < |selectors.value| => ("match[]", selectors.value[i])))
    + (if start.Some? && end.Some? then [("start", start.value.iso), ("end", end.value.iso)] else [])
  }

  lemma LabelTextsOfPairs(selectors: Option<seq<string>>, start: Option<DateTime>, end: Option<DateTime>)
    ensures Canonical(MatchPairs(selectors) + RangePairs(start, end)) == LabelTexts(selectors, start, end)
  {
  }

  /** The label parameters: how many there are, and the query string, empty exactly when there are none. */
  method LabelQuery(selectors: Option<seq<string>>, start: Option<DateTime>, end: Option<DateTime>)
    returns (count: nat, q: string)
    ensures count == |LabelTexts(selectors, start, end)|
    ensures '?' !in q
    ensures q == [] <==> count == 0
    ensures ParseQuery(q) == Some(LabelTexts(selectors, start, end))
  {
    var p := LabelParameters(selectors, start, end);
    count := p.Count();
    q := p.ToString();
    LabelTextsOfPairs(selectors, start, end);
  }

  /**
   * The GET URL of LabelsAsync: the labels path, with "?" and the parameters only
   * when there is at least one parameter.
   */
  method LabelsRequestUri(selectors: Option<seq<string>>, start: Option<DateTime>, end: Option<DateTime>)
    returns (uri: string)
    ensures Split(uri, '?')[0] == LabelsPath
    ensures ('?' in uri) <==> LabelTexts(selectors, start, end) != []
    ensures LabelTexts(selectors, start, end) == [] ==> uri == LabelsPath
    ensures LabelTexts(selectors, start, end) != [] ==>
      |Split(uri, '?')| == 2 && ParseQuery(Split(uri, '?')[1]) == Some(LabelTexts(selectors, start, end))
  {
    var count, q := LabelQuery(selectors, start, end);
    uri := LabelsPath + (if count > 0 then "?" + q else []);
    PathsHaveNoQuestionMark();
    SplitOptionalUri(LabelsPath, q);
  }

  /** The form body of LabelsPostAsync and LabelValuePostAsync: it reads back as the label parameters. */
  method LabelsPostBody(selectors: Option<seq<string>>, start: Option<DateTime>, end: Option<DateTime>)
    returns (body: string)
    ensures body == [] <==> LabelTexts(selectors, start, end) == []
    ensures ParseQuery(body) == Some(LabelTexts(selectors, start, end))
  {
    var count;
    count, body := LabelQuery(selectors, start, end);
  }

  /**
   * The GET URL of LabelValueAsync: the label's values path, then "?" and the
   * parameters only when there is at least one parameter.
   */
  method LabelValueRequestUri(labelKey: string, selectors: Option<seq<string>>, start: Option<DateTime>,
                              end: Option<DateTime>) returns (uri: string)
    ensures |uri| >= |LabelValuesPath(labelKey)| && uri[..|LabelValuesPath(labelKey)|] == LabelValuesPath(labelKey)
    ensures |uri| == |LabelValuesPath(labelKey)| <==> LabelTexts(selectors, start, end) == []
    ensures LabelTexts(selectors, start, end) != [] ==>
      uri[|LabelValuesPath(labelKey)|] == '?'
      && ParseQuery(uri[|LabelValuesPath(labelKey)| + 1..]) == Some(LabelTexts(selectors, start, end))
  {
    var path := LabelValuesPath(labelKey);
    var count, q := LabelQuery(selectors, start, end);
    uri := path + (if count > 0 then "?" + q else []);
    if q != [] {
      assert uri == path + "?" + q;
      assert uri[|path| + 1..] == q;
    } else {
      assert uri == path;
    }
  }
}
