/**
 * The CPU telemetry engine of src/cpu.rs: parsing the per-core rows of
 * Linux `/proc/stat` (proc(5)), turning two counter snapshots into a
 * utilisation ratio, keeping a per-core history and blending the last
 * two ratios. The file read becomes a sequence of lines passed in; `f32`
 * arithmetic becomes `real`.
 */
module CpuTelemetry {
  import opened Wrappers
  import opened StdText

  /** One row of `/proc/stat` for one core: its id and ten jiffy counters. */
  datatype CpuSample = CpuSample(
    cpuId: string,
    user: u64,
    nice: u64,
    system: u64,
    idle: u64,
    iowait: u64,
    irq: u64,
    softirq: u64,
    steal: u64,
    guest: u64,
    guestNice: u64)

  /** The ten counters in the column order of the table. */
  function Counters(s: CpuSample): (cs: seq<u64>)
    ensures |cs| == 10
  {
    [s.user, s.nice, s.system, s.idle, s.iowait, s.irq, s.softirq, s.steal, s.guest, s.guestNice]
  }

  /** `CPUSample::total`: the sum of all ten counters, so no counter exceeds it, and it is zero
      only for a sample whose counters are all zero. */
  function Total(s: CpuSample): (t: nat)
    ensures forall c :: c in Counters(s) ==> c <= t
    ensures t == 0 ==> forall c :: c in Counters(s) ==> c == 0
  {
    s.user + s.nice + s.system + s.idle + s.iowait + s.irq + s.softirq + s.steal + s.guest + s.guestNice
  }

  /** `CPUSample::idle`: idle plus iowait time, which never exceeds the total. */
  function Idle(s: CpuSample): (i: nat)
    ensures i <= Total(s)
    ensures Total(s) - i == s.user + s.nice + s.system + s.irq + s.softirq + s.steal + s.guest + s.guestNice
  {
    s.idle + s.iowait
  }

  /** What `usage` needs so that its two unsigned subtractions do not underflow and its
      division has a non-zero divisor. */
  predicate UsageDefined(newer: CpuSample, older: CpuSample) {
    Total(newer) > Total(older) && Idle(newer) >= Idle(older)
  }

  /** Every counter of `newer` is at least the same counter of `older`. */
  predicate CountersNondecreasing(older: CpuSample, newer: CpuSample) {
    forall k :: 0 <= k < 10 ==> Counters(older)[k] <= Counters(newer)[k]
  }

  /** `CPUSample::usage` with `newer` as the receiver: the share of the elapsed jiffies that
      were not idle. It is never above 1, and below 0 exactly when idle time grew by more than
      the total did; the source does not clamp. */
  function Usage(newer: CpuSample, older: CpuSample): (u: real)
    requires UsageDefined(newer, older)
    ensures u <= 1.0
    ensures 0.0 <= u <==> Idle(newer) - Idle(older) <= Total(newer) - Total(older)
    ensures u == ((Total(newer) - Idle(newer)) - (Total(older) - Idle(older))) as real
                 / (Total(newer) - Total(older)) as real
  {
    var totalDelta := Total(newer) - Total(older);
    var idleDelta := Idle(newer) - Idle(older);
    UsageBounds(idleDelta as real, totalDelta as real);
    1.0 - idleDelta as real / totalDelta as real
  }

  lemma UsageBounds(idleDelta: real, totalDelta: real)
    requires idleDelta >= 0.0 && totalDelta > 0.0
    ensures 1.0 - idleDelta / totalDelta <= 1.0
    ensures 0.0 <= 1.0 - idleDelta / totalDelta <==> idleDelta <= totalDelta
    ensures 1.0 - idleDelta / totalDelta == (totalDelta - idleDelta) / totalDelta
  {
    var q := idleDelta / totalDelta;
    assert q * totalDelta == idleDelta;
    if idleDelta <= totalDelta && q > 1.0 {
      MulNonnegative(q - 1.0, totalDelta);
    }
    assert totalDelta / totalDelta == 1.0;
    DivDifference(totalDelta, idleDelta, totalDelta);
  }

  /** Division by a positive number distributes over a difference. */
  lemma DivDifference(a: real, b: real, c: real)
    requires c > 0.0
    ensures (a - b) / c == a / c - b / c
  {
    var x, y := a / c, b / c;
    assert x * c == a && y * c == b;
    assert (x - y) * c == a - b;
  }

  /** When no counter went backwards and some jiffies elapsed, `usage` is defined and lies in
      [0, 1]. */
  lemma UsageInUnitRange(newer: CpuSample, older: CpuSample)
    requires CountersNondecreasing(older, newer)
    requires Total(newer) > Total(older)
    ensures UsageDefined(newer, older)
    ensures 0.0 <= Usage(newer, older) <= 1.0
  {
    assert Counters(older)[3] <= Counters(newer)[3];
    assert Counters(older)[4] <= Counters(newer)[4];
    assert Counters(older)[0] <= Counters(newer)[0];
    assert Counters(older)[1] <= Counters(newer)[1];
    assert Counters(older)[2] <= Counters(newer)[2];
    assert Counters(older)[5] <= Counters(newer)[5];
    assert Counters(older)[6] <= Counters(newer)[6];
    assert Counters(older)[7] <= Counters(newer)[7];
    assert Counters(older)[8] <= Counters(newer)[8];
    assert Counters(older)[9] <= Counters(newer)[9];
  }

  /** A counter reset (user time falls while idle time grows) gives a negative usage: the ratio
      is not clamped to [0, 1]. */
  lemma UsageIsNotClamped()
    ensures var older := CpuSample("cpu0", 100, 0, 50, 850, 0, 0, 0, 0, 0, 0);
            var newer := CpuSample("cpu0", 10, 0, 50, 960, 0, 0, 0, 0, 0, 0);
            UsageDefined(newer, older) && Usage(newer, older) < 0.0
  {
  }

  // ---------------------------------------------------------------------------------------
  // parse_row

  /** The first token of a per-core row: starts with `cpu` and is not the aggregate row `cpu`. */
  predicate IsCoreId(w: string) {
    |w| >= 3 && w[..3] == "cpu" && w != "cpu"
  }

  /** `parse_row` returns without panicking: the row has a first token, and a per-core row
      either has the ten counter tokens or one of the tokens it has fails to parse (the `?`
      returns before the missing index is reached). */
  predicate ParsesWithoutPanic(row: string) {
    var words := SplitWhitespace(row);
    && |words| >= 1
    && (IsCoreId(words[0]) ==>
          |words| >= 11 || exists j :: 1 <= j < |words| && ParseU64(words[j]).None?)
  }

  /** The counters of tokens `i..10`, parsed in order and stopping at the first failure. */
  function ParseCountersFrom(words: seq<string>, i: nat): (r: Option<seq<u64>>)
    requires 1 <= i <= 11
    requires i == 11 || |words| >= 11 || exists j :: i <= j < |words| && ParseU64(words[j]).None?
    ensures r.Some? <==> forall j :: i <= j <= 10 ==> j < |words| && ParseU64(words[j]).Some?
    ensures r.Some? ==> |r.value| == 11 - i
    ensures r.Some? ==> forall j :: i <= j <= 10 ==> r.value[j - i] == ParseU64(words[j]).value
    decreases 11 - i
  {
    if i == 11 then Some([])
    else
      match ParseU64(words[i])
      case None => None
      case Some(v) =>
        match ParseCountersFrom(words, i + 1)
        case None => None
        case Some(rest) =>
          var values := [v] + rest;
          PrependCounter(words, i, rest, values);
          Some(values)
  }

  /** Token `i`'s value in front of the values of tokens `i + 1..10` gives the values of
      tokens `i..10`. */
  lemma PrependCounter(words: seq<string>, i: nat, rest: seq<u64>, values: seq<u64>)
    requires 1 <= i <= 10 < |words| && ParseU64(words[i]).Some? && |rest| == 10 - i
    requires values == [ParseU64(words[i]).value] + rest
    requires forall j :: i + 1 <= j <= 10 ==>
      ParseU64(words[j]).Some? && rest[j - (i + 1)] == ParseU64(words[j]).value
    ensures forall j :: i <= j <= 10 ==> values[j - i] == ParseU64(words[j]).value
  {
    forall j | i <= j <= 10 ensures values[j - i] == ParseU64(words[j]).value {
      if j > i {
        assert values[j - i] == rest[j - (i + 1)];
      }
    }
  }

  /** `parse_row`: a per-core row becomes a sample whose id is token 0 and whose counters are
      tokens 1 to 10 in order; the aggregate row, any other row and any row with a counter
      token that is not a `u64` give `None`; tokens after the eleventh are ignored. */
  function ParseRow(row: string): (r: Option<CpuSample>)
    requires ParsesWithoutPanic(row)
    ensures var words := SplitWhitespace(row);
      && (r.Some? <==>
            IsCoreId(words[0]) && forall j :: 1 <= j <= 10 ==> j < |words| && ParseU64(words[j]).Some?)
      && (r.Some? ==> r.value.cpuId == words[0])
      && (r.Some? ==> forall j :: 1 <= j <= 10 ==> Counters(r.value)[j - 1] == ParseU64(words[j]).value)
  {
    var words := SplitWhitespace(row);
    if !IsCoreId(words[0]) then None
    else
      match ParseCountersFrom(words, 1)
      case None => None
      case Some(cs) => Some(SampleOf(words[0], cs))
  }

  /** The sample with id `id` and the ten counters `cs`, in column order. */
  function SampleOf(id: string, cs: seq<u64>): (s: CpuSample)
    requires |cs| == 10
    ensures s.cpuId == id && Counters(s) == cs
  {
    CpuSample(id, cs[0], cs[1], cs[2], cs[3], cs[4], cs[5], cs[6], cs[7], cs[8], cs[9])
  }

  /** The ten counters of `s` in decimal, in column order. */
  function CounterWords(s: CpuSample): (ws: seq<string>)
    ensures |ws| == 10
    ensures forall k :: 0 <= k < 10 ==> ws[k] == DecimalString(Counters(s)[k])
  {
    [DecimalString(s.user), DecimalString(s.nice), DecimalString(s.system), DecimalString(s.idle),
     DecimalString(s.iowait), DecimalString(s.irq), DecimalString(s.softirq), DecimalString(s.steal),
     DecimalString(s.guest), DecimalString(s.guestNice)]
  }

  /** The row for `s` as the kernel lays it out, followed by any further tokens. */
  function FormatRow(s: CpuSample, extra: seq<string>): string
  {
    JoinWords([s.cpuId] + CounterWords(s) + extra)
  }

  lemma FormattedWords(s: CpuSample, extra: seq<string>)
    requires IsWord(s.cpuId)
    requires forall k :: 0 <= k < |extra| ==> IsWord(extra[k])
    ensures SplitWhitespace(FormatRow(s, extra)) == [s.cpuId] + CounterWords(s) + extra
  {
    var words := [s.cpuId] + CounterWords(s) + extra;
    forall k | 0 <= k < |words| ensures IsWord(words[k]) {
      if 1 <= k < 11 {
        var w := DecimalString(Counters(s)[k - 1]);
        assert words[k] == w;
        assert forall i :: 0 <= i < |w| ==> IsDigit(w[i]);
      } else if k >= 11 {
        assert words[k] == extra[k - 11];
      }
    }
    SplitJoinRoundTrip(words);
  }

  /** Parsing a formatted per-core row gives back the sample, whatever tokens follow the
      counters. */
  lemma ParseFormatRoundTrip(s: CpuSample, extra: seq<string>)
    requires IsCoreId(s.cpuId) && IsWord(s.cpuId)
    requires forall k :: 0 <= k < |extra| ==> IsWord(extra[k])
    ensures ParsesWithoutPanic(FormatRow(s, extra))
    ensures ParseRow(FormatRow(s, extra)) == Some(s)
  {
    var row := FormatRow(s, extra);
    var words := [s.cpuId] + CounterWords(s) + extra;
    FormattedWords(s, extra);
    assert SplitWhitespace(row) == words;
    forall j | 1 <= j <= 10 ensures ParseU64(words[j]) == Some(Counters(s)[j - 1]) {
      assert words[j] == CounterWords(s)[j - 1];
      ParseU64RoundTrip(Counters(s)[j - 1]);
    }
    assert ParsesWithoutPanic(row);
    var r := ParseRow(row);
    assert r.Some? by {
      assert forall j :: 1 <= j <= 10 ==> j < |words| && ParseU64(words[j]).Some?;
    }
    var sample := r.value;
    assert sample.cpuId == s.cpuId;
    forall k | 0 <= k < 10 ensures Counters(sample)[k] == Counters(s)[k] {
      assert Counters(sample)[k] == ParseU64(words[k + 1]).value;
    }
    SampleDeterminedByCounters(sample, s);
  }

  lemma SampleDeterminedByCounters(a: CpuSample, b: CpuSample)
    requires a.cpuId == b.cpuId && Counters(a) == Counters(b)
    ensures a == b
  {
    assert Counters(a)[0] == Counters(b)[0] && Counters(a)[1] == Counters(b)[1];
    assert Counters(a)[2] == Counters(b)[2] && Counters(a)[3] == Counters(b)[3];
    assert Counters(a)[4] == Counters(b)[4] && Counters(a)[5] == Counters(b)[5];
    assert Counters(a)[6] == Counters(b)[6] && Counters(a)[7] == Counters(b)[7];
    assert Counters(a)[8] == Counters(b)[8] && Counters(a)[9] == Counters(b)[9];
  }

  /** The aggregate row and a row whose first token does not start with `cpu` are skipped. */
  lemma ParseRowRejectsNonCoreRows(row: string)
    requires ParsesWithoutPanic(row)
    requires !IsCoreId(SplitWhitespace(row)[0])
    ensures ParseRow(row) == None
  {
  }

  // ---------------------------------------------------------------------------------------
  // Per-core histories and CPUMetrics::sample

  /** `HashMap<String, Vec<CPUSample>>`: each core's samples, oldest first. */
  type Histories = map<string, seq<CpuSample>>

  /** A core's history, empty for a core never seen. */
  function History(m: Histories, id: string): seq<CpuSample>
  {
    if id in m then m[id] else []
  }

  /** Every line of `lines` is one `parse_row` returns on, read from the last line back. */
  predicate AllRowsParse(lines: seq<string>)
    decreases |lines|
  {
    lines == [] || (AllRowsParse(lines[..|lines| - 1]) && ParsesWithoutPanic(lines[|lines| - 1]))
  }

  /** Every prefix of a table that parses parses, and so does each of its lines. */
  lemma {:induction false} AllRowsParsePrefix(lines: seq<string>, i: nat)
    requires i <= |lines| && AllRowsParse(lines)
    ensures AllRowsParse(lines[..i])
    ensures i < |lines| ==> ParsesWithoutPanic(lines[i])
    decreases |lines|
  {
    if i < |lines| {
      var init := lines[..|lines| - 1];
      if i < |lines| - 1 {
        AllRowsParsePrefix(init, i);
        assert init[..i] == lines[..i];
      }
    } else {
      assert lines[..i] == lines;
    }
  }

  /** A history of core `id`: non-empty, and every sample in it carries that id. */
  predicate IsHistoryOf(h: seq<CpuSample>, id: string) {
    |h| > 0 && forall k :: 0 <= k < |h| ==> h[k].cpuId == id
  }

  /** Every core's history is a history of that core. */
  predicate WellFormed(m: Histories) {
    forall id :: id in m ==> IsHistoryOf(m[id], id)
  }

  /** The histories after one pass of `sample` over `lines`: each accepted row is pushed onto
      the end of its own core's history. */
  function AppendRows(m: Histories, lines: seq<string>): (r: Histories)
    requires AllRowsParse(lines)
    ensures r.Keys == m.Keys + CoreIds(lines)
    decreases |lines|
  {
    if lines == [] then m
    else
      var before := AppendRows(m, lines[..|lines| - 1]);
      match ParseRow(lines[|lines| - 1])
      case None => before
      case Some(s) => before[s.cpuId := History(before, s.cpuId) + [s]]
  }

  /** One more line extends a pass by that line's row, if it is accepted. */
  lemma AppendRowsStep(m: Histories, lines: seq<string>, i: nat)
    requires i < |lines| && AllRowsParse(lines)
    ensures AllRowsParse(lines[..i]) && AllRowsParse(lines[..i + 1]) && ParsesWithoutPanic(lines[i])
    ensures AppendRows(m, lines[..i + 1]) == match ParseRow(lines[i])
      case None => AppendRows(m, lines[..i])
      case Some(s) => AppendRows(m, lines[..i])[s.cpuId := History(AppendRows(m, lines[..i]), s.cpuId) + [s]]
  {
    AllRowsParsePrefix(lines, i);
    AllRowsParsePrefix(lines, i + 1);
    var prefix := lines[..i + 1];
    assert prefix[..i] == lines[..i];
    assert prefix[i] == lines[i];
  }

  /** The samples that the rows of `lines` give for core `id`, in line order. */
  function RowsFor(lines: seq<string>, id: string): (rows: seq<CpuSample>)
    requires AllRowsParse(lines)
    ensures forall k :: 0 <= k < |rows| ==> rows[k].cpuId == id
    decreases |lines|
  {
    if lines == [] then []
    else
      var before := RowsFor(lines[..|lines| - 1], id);
      match ParseRow(lines[|lines| - 1])
      case Some(s) => if s.cpuId == id then before + [s] else before
      case None => before
  }

  /** The ids of the cores that some row of `lines` reports. */
  function CoreIds(lines: seq<string>): set<string>
    requires AllRowsParse(lines)
    decreases |lines|
  {
    if lines == [] then {}
    else
      var before := CoreIds(lines[..|lines| - 1]);
      match ParseRow(lines[|lines| - 1])
      case Some(s) => before + {s.cpuId}
      case None => before
  }

  /** After a pass, every core's history is its old history followed by its new rows, in line
      order: rejected rows are skipped, no history shrinks, and the cores no row names keep
      their history. A core has a history afterwards iff it had one or some row names it. */
  lemma {:induction false} AppendRowsHistory(m: Histories, lines: seq<string>)
    requires AllRowsParse(lines)
    ensures forall id :: History(AppendRows(m, lines), id) == History(m, id) + RowsFor(lines, id)
  {
    if lines != [] {
      var init := lines[..|lines| - 1];
      AppendRowsHistory(m, init);
      match ParseRow(lines[|lines| - 1]) {
        case None =>
        case Some(s) =>
          var id := s.cpuId;
          assert History(m, id) + RowsFor(init, id) + [s] == History(m, id) + (RowsFor(init, id) + [s]);
      }
    }
  }

  /** The first pass, from no histories, leaves each core with exactly its own rows. */
  lemma FirstPassHistories(lines: seq<string>)
    requires AllRowsParse(lines)
    ensures forall id :: History(AppendRows(map[], lines), id) == RowsFor(lines, id)
  {
    AppendRowsHistory(map[], lines);
    forall id ensures History(AppendRows(map[], lines), id) == RowsFor(lines, id) {
      assert History(map[], id) == [];
    }
  }

  /** A core gets new rows in a pass exactly when some row names it. */
  lemma {:induction false} RowsForEmptyIffUnnamed(lines: seq<string>, id: string)
    requires AllRowsParse(lines)
    ensures RowsFor(lines, id) == [] <==> id !in CoreIds(lines)
  {
    if lines != [] {
      var init := lines[..|lines| - 1];
      RowsForEmptyIffUnnamed(init, id);
    }
  }

  /** A pass keeps every history non-empty and filed under its own core. */
  lemma AppendRowsWellFormed(m: Histories, lines: seq<string>)
    requires AllRowsParse(lines) && WellFormed(m)
    ensures WellFormed(AppendRows(m, lines))
  {
    var m': Histories := AppendRows(m, lines);
    AppendRowsHistory(m, lines);
    forall id | id in m'
      ensures IsHistoryOf(m'[id], id)
    {
      assert m'[id] == History(m, id) + RowsFor(lines, id);
      if id !in m {
        RowsForEmptyIffUnnamed(lines, id);
      }
    }
  }

  // ---------------------------------------------------------------------------------------
  // interpolate_usage

  /** The cores with at least three samples, the ones `interpolate_usage` reports. */
  function Eligible(m: Histories): (ids: set<string>)
    ensures ids <= m.Keys
    ensures forall id :: id in ids <==> |History(m, id)| >= 3
  {
    set id | id in m && |m[id]| >= 3
  }

  /** `usage` is defined on the last two pairs of every eligible core. */
  predicate Interpolable(m: Histories) {
    forall id :: id in Eligible(m) ==>
      var h := m[id];
      UsageDefined(h[|h| - 1], h[|h| - 2]) && UsageDefined(h[|h| - 2], h[|h| - 3])
  }

  /** The linear blend `prev + (last - prev) * delta`: `prev` at 0, `last` at 1, and between
      the two for every `delta` in [0, 1]. */
  function Blend(prev: real, last: real, delta: real): (r: real)
    ensures delta == 0.0 ==> r == prev
    ensures delta == 1.0 ==> r == last
    ensures 0.0 <= delta <= 1.0 && prev <= last ==> prev <= r <= last
    ensures 0.0 <= delta <= 1.0 && last <= prev ==> last <= r <= prev
  {
    var r := prev + (last - prev) * delta;
    BlendBetween(prev, last, delta, r);
    r
  }

  lemma MulNonnegative(a: real, b: real)
    requires a >= 0.0 && b >= 0.0
    ensures a * b >= 0.0
  {
  }

  lemma BlendBetween(prev: real, last: real, delta: real, r: real)
    requires r == prev + (last - prev) * delta
    ensures delta == 0.0 ==> r == prev
    ensures delta == 1.0 ==> r == last
    ensures 0.0 <= delta <= 1.0 && prev <= last ==> prev <= r <= last
    ensures 0.0 <= delta <= 1.0 && last <= prev ==> last <= r <= prev
  {
    if 0.0 <= delta <= 1.0 {
      var d := last - prev;
      if d >= 0.0 {
        MulNonnegative(d, delta);
        MulNonnegative(d, 1.0 - delta);
        assert d * (1.0 - delta) == d - d * delta;
      } else {
        MulNonnegative(-d, delta);
        MulNonnegative(-d, 1.0 - delta);
        assert (-d) * (1.0 - delta) == d * delta - d;
        assert (-d) * delta == - (d * delta);
      }
    }
  }

  /** The blend moves monotonically from `prev` towards `last` as `delta` grows. */
  lemma BlendMonotone(prev: real, last: real, d1: real, d2: real)
    requires d1 <= d2
    ensures prev <= last ==> Blend(prev, last, d1) <= Blend(prev, last, d2)
    ensures last <= prev ==> Blend(prev, last, d2) <= Blend(prev, last, d1)
  {
    var d := last - prev;
    assert d * d2 - d * d1 == d * (d2 - d1);
    if d >= 0.0 {
      assert d * (d2 - d1) >= 0.0;
    } else {
      assert d * (d2 - d1) <= 0.0;
    }
  }

  /** The usage of the newest pair of a history of three or more samples. */
  function LastUsage(h: seq<CpuSample>): (u: real)
    requires |h| >= 3 && UsageDefined(h[|h| - 1], h[|h| - 2])
    ensures u <= 1.0
  {
    Usage(h[|h| - 1], h[|h| - 2])
  }

  /** The usage of the pair before the newest. */
  function PrevUsage(h: seq<CpuSample>): (u: real)
    requires |h| >= 3 && UsageDefined(h[|h| - 2], h[|h| - 3])
    ensures u <= 1.0
  {
    Usage(h[|h| - 2], h[|h| - 3])
  }

  /** A core becomes eligible on the pass that brings its history to three samples, not
      before. */
  lemma EligibleAfterPass(m: Histories, lines: seq<string>, id: string)
    requires AllRowsParse(lines)
    ensures id in Eligible(AppendRows(m, lines)) <==> |History(m, id)| + |RowsFor(lines, id)| >= 3
  {
    AppendRowsHistory(m, lines);
  }

  /** Right after the first pass, while no core has been reported three times, nothing is
      eligible (in /proc/stat every core appears once). */
  lemma FirstPassHasNoEligibleCore(lines: seq<string>)
    requires AllRowsParse(lines)
    requires forall id :: |RowsFor(lines, id)| < 3
    ensures Eligible(AppendRows(map[], lines)) == {}
  {
    AppendRowsHistory(map[], lines);
    var m := AppendRows(map[], lines);
    forall id | id in m ensures |m[id]| < 3 {
      assert History(m, id) == History(map[], id) + RowsFor(lines, id);
    }
  }

  /** `CPUMetrics`: the per-core histories, updated in place by `sample`. */
  class CpuMetrics {
    var samples: Histories

    ghost predicate Valid()
      reads this
    {
      WellFormed(samples)
    }

    /** `Default::default`: empty histories, then one pass over the table. */
    constructor Default(lines: seq<string>)
      requires AllRowsParse(lines)
      ensures Valid()
      ensures samples == AppendRows(map[], lines)
      ensures forall id :: History(samples, id) == RowsFor(lines, id)
      ensures samples.Keys == CoreIds(lines)
      ensures Ncpus() == |CoreIds(lines)|
    {
      samples := map[];
      new;
      Sample(lines);
      FirstPassHistories(lines);
    }

    /** `ncpus`: the number of distinct cores seen so far. */
    function Ncpus(): (n: nat)
      reads this
      ensures n == |samples.Keys|
      ensures n == 0 <==> samples == map[]
    {
      |samples|
    }

    /** `sample`: one pass over the lines of the table, pushing each accepted row onto its
        core's history. */
    method Sample(lines: seq<string>)
      requires Valid() && AllRowsParse(lines)
      modifies this
      ensures Valid()
      ensures samples == AppendRows(old(samples), lines)
      ensures forall id :: History(samples, id) == History(old(samples), id) + RowsFor(lines, id)
      ensures samples.Keys == old(samples).Keys + CoreIds(lines)
    {
      var i := 0;
      while i < |lines|
        invariant 0 <= i <= |lines|
        invariant AllRowsParse(lines[..i])
        invariant samples == AppendRows(old(samples), lines[..i])
      {
        AppendRowsStep(old(samples), lines, i);
        var row := ParseRow(lines[i]);
        match row {
          case Some(s) => Push(s);
          case None =>
        }
        i := i + 1;
      }
      assert lines[..i] == lines;
      AppendRowsHistory(old(samples), lines);
      AppendRowsWellFormed(old(samples), lines);
    }

    /** `entry(id).or_default().push(s)`: append `s` to its core's history, starting one for
        a core not seen before; every other history is untouched. */
    method Push(s: CpuSample)
      modifies this
      ensures samples == old(samples)[s.cpuId := History(old(samples), s.cpuId) + [s]]
      ensures History(samples, s.cpuId) == History(old(samples), s.cpuId) + [s]
      ensures forall id :: id != s.cpuId ==> History(samples, id) == History(old(samples), id)
    {
      samples := samples[s.cpuId := History(samples, s.cpuId) + [s]];
    }

    /** `interpolate_usage`: for every core with at least three samples, the blend at `delta`
        of the usage of its previous pair and of its last pair; the other cores are left out,
        so there are never more values than cores. */
    function InterpolateUsage(delta: real): (r: map<string, real>)
      reads this
      requires Interpolable(samples)
      ensures r.Keys == Eligible(samples)
      ensures |r| <= Ncpus()
      ensures forall id :: id in r ==>
        r[id] == Blend(PrevUsage(samples[id]), LastUsage(samples[id]), delta)
    {
      var r := map id | id in Eligible(samples) ::
        Blend(PrevUsage(samples[id]), LastUsage(samples[id]), delta);
      assert r.Keys == Eligible(samples);
      SubsetCardinality(r.Keys, samples.Keys);
      r
    }
  }

  /** Every value `interpolate_usage` reports blends the usages of that core's own last three
      samples: well-formed histories never mix cores. */
  lemma InterpolateUsageOwnSamples(metrics: CpuMetrics, delta: real)
    requires metrics.Valid() && Interpolable(metrics.samples)
    ensures forall id :: id in metrics.InterpolateUsage(delta) ==>
      |metrics.samples[id]| >= 3 && IsHistoryOf(metrics.samples[id], id)
  {
  }

  /** The last three samples of a core whose counters never went backwards between them. */
  predicate SteadyTail(h: seq<CpuSample>) {
    |h| >= 3 && CountersNondecreasing(h[|h| - 3], h[|h| - 2]) && CountersNondecreasing(h[|h| - 2], h[|h| - 1])
  }

  /** With the progress in [0, 1], the value `interpolate_usage` reports for an eligible core
      whose last three samples have no counter going backwards is a utilisation in [0, 1]. */
  lemma InterpolatedUsageInUnitRange(m: Histories, delta: real)
    requires Interpolable(m) && 0.0 <= delta <= 1.0
    ensures forall id :: id in Eligible(m) && SteadyTail(m[id]) ==>
      0.0 <= Blend(PrevUsage(m[id]), LastUsage(m[id]), delta) <= 1.0
  {
    forall id | id in Eligible(m) && SteadyTail(m[id])
      ensures 0.0 <= Blend(PrevUsage(m[id]), LastUsage(m[id]), delta) <= 1.0
    {
      BlendedUsageInUnitRange(m[id], delta);
    }
  }

  /** The blend of the two newest usages of a steady history lies in [0, 1]. */
  lemma BlendedUsageInUnitRange(h: seq<CpuSample>, delta: real)
    requires SteadyTail(h) && 0.0 <= delta <= 1.0
    requires UsageDefined(h[|h| - 1], h[|h| - 2]) && UsageDefined(h[|h| - 2], h[|h| - 3])
    ensures 0.0 <= Blend(PrevUsage(h), LastUsage(h), delta) <= 1.0
  {
    UsageInUnitRange(h[|h| - 1], h[|h| - 2]);
    UsageInUnitRange(h[|h| - 2], h[|h| - 3]);
  }

  lemma SubsetCardinality<T>(a: set<T>, b: set<T>)
    requires a <= b
    ensures |a| <= |b|
  {
    assert b == a + (b - a);
  }
}
