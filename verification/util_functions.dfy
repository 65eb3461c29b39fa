/**
 The array helpers of the detector's preprocessing: the feature table and
 its bounds, the column-wise minimum and maximum of a dataset, cutting and
 zero-padding samples to a fixed number of packets, and counting packets.
 Array entries are exact reals; floating-point rounding and NaN are not
 modelled.
 */
module UtilFunctions {
  import opened Results
  import opened Matrices

  /** The errors numpy and Python raise on the paths modelled here. */
  datatype PyError = IndexError | ValueError

  // ----- Constants ---------------------------------------------------------

  /** `MAX_FLOW_LEN` and `TIME_WINDOW`; the functions spell the default window as a literal 10. */
  const MaxFlowLen: nat := 100
  const TimeWindow: nat := 10

  const Protocols: seq<string> :=
    ["arp", "data", "dns", "ftp", "http", "icmp", "ip", "ssdp", "ssl", "telnet", "tcp", "udp"]

  /** `2 ** n`, which is also `1 << n`. */
  function Pow2(n: nat): (r: nat)
    ensures r >= 1
  {
    if n == 0 then 1 else 2 * Pow2(n - 1)
  }

  /** `powers_of_two`: the weight of each protocol's bit. */
  const PowersOfTwo: seq<nat> := seq(|Protocols|, i requires 0 <= i < |Protocols| => Pow2(i))

  /** One entry of `feature_list`: a feature name and its declared `[low, high]` range. */
  datatype Feature = Feature(name: string, low: int, high: int)

  /** `feature_list` as declared, before any call to `static_min_max`. */
  const FeatureList: seq<Feature> := [
    Feature("timestamp", 0, 10),
    Feature("packet_length", 0, Pow2(16)),
    Feature("highest_layer", 0, Pow2(32)),
    Feature("IP_flags", 0, Pow2(16)),
    Feature("protocols", 0, Pow2(|Protocols|)),
    Feature("TCP_length", 0, Pow2(16)),
    Feature("TCP_ack", 0, Pow2(32)),
    Feature("TCP_flags", 0, Pow2(16)),
    Feature("TCP_window_size", 0, Pow2(16)),
    Feature("UDP_length", 0, Pow2(16)),
    Feature("ICMP_type", 0, Pow2(8))
  ]

  /** `flags[i] * 2 ** (k + i)` summed over `i`: a protocol bit vector read as a number. */
  function WeightedSum(flags: seq<nat>, k: nat): nat
  {
    if |flags| == 0 then 0 else flags[0] * Pow2(k) + WeightedSum(flags[1..], k + 1)
  }

  /** Bits `k .. k + |flags| - 1` set at most once stay below `2 ** (k + |flags|)`. */
  lemma {:induction false} WeightedSumBound(flags: seq<nat>, k: nat)
    requires forall i :: 0 <= i < |flags| ==> flags[i] <= 1
    ensures WeightedSum(flags, k) + Pow2(k) <= Pow2(k + |flags|)
  {
    if |flags| > 0 {
      WeightedSumBound(flags[1..], k + 1);
    }
  }

  /**
   Any set of protocols, encoded with `powers_of_two`, lies within the
   range declared for the `protocols` feature.
   */
  lemma ProtocolMaskInRange(flags: seq<nat>)
    requires |flags| == |Protocols|
    requires forall i :: 0 <= i < |flags| ==> flags[i] <= 1
    ensures FeatureList[4].name == "protocols"
    ensures FeatureList[4].low <= WeightedSum(flags, 0) < FeatureList[4].high
    ensures forall i :: 0 <= i < |PowersOfTwo| ==> PowersOfTwo[i] == Pow2(i)
  {
    WeightedSumBound(flags, 0);
    ProtocolsEntry();
    PowersOfTwoValues();
  }

  /** The `protocols` entry of `feature_list` spans one bit per protocol. */
  lemma ProtocolsEntry()
    ensures FeatureList[4] == Feature("protocols", 0, Pow2(|Protocols|))
  {
  }

  /** `powers_of_two[i]` is `2 ** i`. */
  lemma PowersOfTwoValues()
    ensures forall i :: 0 <= i < |PowersOfTwo| ==> PowersOfTwo[i] == Pow2(i)
  {
  }

  // ----- static_min_max -----------------------------------------------------

  /**
   The module-global state `static_min_max` mutates: the upper bound of the
   `timestamp` entry of `feature_list`. Nothing else in the table changes.
   */
  datatype ModuleState = ModuleState(timestampHigh: int)

  const InitialState: ModuleState := ModuleState(FeatureList[0].high)

  /** `feature_list` as it stands in a given module state. */
  function Table(st: ModuleState): seq<Feature>
  {
    FeatureList[0 := Feature("timestamp", 0, st.timestampHigh)]
  }

  datatype StaticBounds = StaticBounds(state: ModuleState, mins: seq<int>, maxs: seq<int>)

  /**
   `static_min_max(time_window)`: overwrite the timestamp bound in the global
   table, then read every entry's `[low, high]` in table order.
   */
  function StaticMinMax(st: ModuleState, timeWindow: int): (r: StaticBounds)
    ensures r.state.timestampHigh == timeWindow
    ensures |r.mins| == |r.maxs| == |FeatureList| == 11
    ensures forall i :: 0 <= i < |r.mins| ==> r.mins[i] == 0
    ensures r.maxs[0] == timeWindow
    ensures forall i :: 1 <= i < |r.maxs| ==> r.maxs[i] == FeatureList[i].high
  {
    var st' := ModuleState(timeWindow);
    var table := Table(st');
    StaticBounds(st',
      seq(|table|, i requires 0 <= i < |table| => table[i].low),
      seq(|table|, i requires 0 <= i < |table| => table[i].high))
  }

  /**
   The global mutation persists, yet a call's result does not depend on
   earlier calls, because each call overwrites the bound before reading it.
   */
  lemma StaticMinMaxHistoryFree(st: ModuleState, a: int, b: int)
    ensures Table(StaticMinMax(st, a).state)[0].high == a
    ensures StaticMinMax(StaticMinMax(st, a).state, b) == StaticMinMax(InitialState, b)
  {
  }

  // ----- find_min_max -------------------------------------------------------

  /** A float that may be `inf`: `min_array` starts out as `np.inf` in every column. */
  datatype Ext = Fin(v: real) | PosInf

  /** `e <= x` for a finite bound `e`. */
  predicate AtMost(e: Ext, x: real)
  {
    e.Fin? && e.v <= x
  }

  function Max(a: real, b: real): real
  {
    if a < b then b else a
  }

  function MinExt(e: Ext, x: real): Ext
  {
    if e.PosInf? || x < e.v then Fin(x) else e
  }

  /** `np.amax(np.vstack([acc, rows]), axis=0)`, one row at a time. */
  function MaxRows(acc: seq<real>, rows: seq<seq<real>>): (r: seq<real>)
    requires forall i :: 0 <= i < |rows| ==> |rows[i]| == |acc|
    ensures |r| == |acc|
    ensures forall j :: 0 <= j < |r| ==> acc[j] <= r[j]
    ensures forall i, j :: 0 <= i < |rows| && 0 <= j < |r| ==> rows[i][j] <= r[j]
    ensures forall j :: 0 <= j < |r| ==> r[j] == acc[j] || exists i :: 0 <= i < |rows| && r[j] == rows[i][j]
    decreases |rows|
  {
    if |rows| == 0 then acc
    else MaxRows(seq(|acc|, j requires 0 <= j < |acc| => Max(acc[j], rows[0][j])), rows[1..])
  }

  /** `np.amin(np.vstack([acc, rows]), axis=0)`, one row at a time. */
  function MinRows(acc: seq<Ext>, rows: seq<seq<real>>): (r: seq<Ext>)
    requires forall i :: 0 <= i < |rows| ==> |rows[i]| == |acc|
    ensures |r| == |acc|
    ensures forall j :: 0 <= j < |r| && acc[j].Fin? ==> AtMost(r[j], acc[j].v)
    ensures forall i, j :: 0 <= i < |rows| && 0 <= j < |r| ==> AtMost(r[j], rows[i][j])
    ensures forall j :: 0 <= j < |r| ==> r[j] == acc[j] || exists i :: 0 <= i < |rows| && r[j] == Fin(rows[i][j])
    decreases |rows|
  {
    if |rows| == 0 then acc
    else MinRows(seq(|acc|, j requires 0 <= j < |acc| => MinExt(acc[j], rows[0][j])), rows[1..])
  }

  /** Every sample is a well-formed array with `k` columns. */
  ghost predicate AllWidth(X: seq<Matrix>, k: nat)
  {
    forall s :: 0 <= s < |X| ==> X[s].Valid() && X[s].width == k
  }

  /** The loop of `find_min_max` over the samples, for the maxima. */
  function MaxSamples(acc: seq<real>, X: seq<Matrix>): (r: seq<real>)
    requires AllWidth(X, |acc|)
    ensures |r| == |acc|
    ensures forall j :: 0 <= j < |r| ==> acc[j] <= r[j]
    ensures forall s, i, j :: 0 <= s < |X| && 0 <= i < X[s].Height() && 0 <= j < |r| ==> X[s].rows[i][j] <= r[j]
    ensures forall j :: 0 <= j < |r| ==>
              r[j] == acc[j] || exists s, i :: 0 <= s < |X| && 0 <= i < X[s].Height() && r[j] == X[s].rows[i][j]
    decreases |X|
  {
    if |X| == 0 then acc else MaxSamples(MaxRows(acc, X[0].rows), X[1..])
  }

  /** The loop of `find_min_max` over the samples, for the minima. */
  function MinSamples(acc: seq<Ext>, X: seq<Matrix>): (r: seq<Ext>)
    requires AllWidth(X, |acc|)
    ensures |r| == |acc|
    ensures forall j :: 0 <= j < |r| && acc[j].Fin? ==> AtMost(r[j], acc[j].v)
    ensures forall s, i, j :: 0 <= s < |X| && 0 <= i < X[s].Height() && 0 <= j < |r| ==> AtMost(r[j], X[s].rows[i][j])
    ensures forall j :: 0 <= j < |r| ==>
              r[j] == acc[j] || exists s, i :: 0 <= s < |X| && 0 <= i < X[s].Height() && r[j] == Fin(X[s].rows[i][j])
    decreases |X|
  {
    if |X| == 0 then acc else MinSamples(MinRows(acc, X[0].rows), X[1..])
  }

  /** Column-wise bounds: `min_array` may hold `inf`, `max_array` is finite. */
  datatype MinMax = MinMax(mins: seq<Ext>, maxs: seq<real>)

  /** No sample has any row. */
  ghost predicate NoRows(X: seq<Matrix>)
  {
    forall s :: 0 <= s < |X| ==> X[s].Height() == 0
  }

  /**
   `find_min_max(X, time_window)`. `X[0]` raises IndexError on an empty
   list; `np.vstack` raises ValueError when a sample's column count differs
   from the first sample's; writing column 0 raises IndexError when there
   are no columns. Column 0 is then forced to `[0, time_window]`.
   */
  function FindMinMax(X: seq<Matrix>, timeWindow: real): (r: Result<MinMax, PyError>)
    requires AllValid(X)
    ensures r.Ok? <==> |X| > 0 && X[0].width > 0 && AllWidth(X, X[0].width)
    ensures |X| == 0 ==> r == Err(IndexError)
    ensures |X| > 0 && !AllWidth(X, X[0].width) ==> r == Err(ValueError)
    ensures r.Err? && |X| > 0 && AllWidth(X, X[0].width) ==> r.error == IndexError
    ensures r.Ok? ==> |r.value.mins| == |r.value.maxs| == X[0].width
    ensures r.Ok? ==> r.value.mins[0] == Fin(0.0) && r.value.maxs[0] == timeWindow
    ensures r.Ok? ==> forall j :: 1 <= j < |r.value.maxs| ==> 0.0 <= r.value.maxs[j]
    ensures r.Ok? ==> forall s, i, j :: 0 <= s < |X| && 0 <= i < X[s].Height() && 1 <= j < |r.value.maxs| ==>
                        X[s].rows[i][j] <= r.value.maxs[j] && AtMost(r.value.mins[j], X[s].rows[i][j])
  {
    if |X| == 0 then Err(IndexError)
    else
      var k := X[0].width;
      if !(forall s :: 0 <= s < |X| ==> X[s].width == k) then Err(ValueError)
      else if k == 0 then Err(IndexError)
      else
        var maxs := MaxSamples(seq(k, j => 0.0), X);
        var mins := MinSamples(seq(k, j => PosInf), X);
        Ok(MinMax(mins[0 := Fin(0.0)], maxs[0 := timeWindow]))
  }

  /**
   The bounds of `find_min_max` are tight: outside column 0, each maximum
   is 0 or a value of its column, and each minimum is `inf` exactly when
   there are no rows, otherwise a value of its column.
   */
  lemma FindMinMaxTight(X: seq<Matrix>, timeWindow: real, j: nat)
    requires AllValid(X)
    requires FindMinMax(X, timeWindow).Ok?
    requires 1 <= j < X[0].width
    ensures var b := FindMinMax(X, timeWindow).value;
            && (b.maxs[j] == 0.0 || exists s, i :: 0 <= s < |X| && 0 <= i < X[s].Height() && b.maxs[j] == X[s].rows[i][j])
            && (b.mins[j] == PosInf <==> NoRows(X))
            && (b.mins[j].Fin? ==> exists s, i :: 0 <= s < |X| && 0 <= i < X[s].Height() && b.mins[j].v == X[s].rows[i][j])
  {
    var b := FindMinMax(X, timeWindow).value;
    if !NoRows(X) {
      var s :| 0 <= s < |X| && X[s].Height() != 0;
      assert AtMost(b.mins[j], X[s].rows[0][j]);
    }
  }

  // ----- padding and normalize_and_padding -----------------------------------

  /** The samples that are longer than `n` rows. */
  ghost predicate SomeLongerThan(X: seq<Matrix>, n: int)
  {
    exists s :: 0 <= s < |X| && X[s].Height() > n
  }

  /**
   `padding(X, max_flow_len)`: each sample gets zero rows appended up to
   `max_flow_len` rows; `np.pad` raises ValueError when a sample is already
   longer, because the pad amount would be negative.
   */
  function Padding(X: seq<Matrix>, maxFlowLen: int): (r: Result<seq<Matrix>, PyError>)
    requires AllValid(X)
    ensures r.Err? <==> SomeLongerThan(X, maxFlowLen)
    ensures r.Ok? ==> |r.value| == |X| && AllValid(r.value)
    ensures r.Ok? ==> forall s :: 0 <= s < |X| ==>
              && r.value[s].width == X[s].width
              && r.value[s].Height() == maxFlowLen
              && r.value[s].rows[..X[s].Height()] == X[s].rows
              && forall i :: X[s].Height() <= i < maxFlowLen ==> r.value[s].rows[i] == ZeroRow(X[s].width)
    decreases |X|
  {
    if |X| == 0 then Ok([])
    else if X[0].Height() > maxFlowLen then Err(ValueError)
    else
      match Padding(X[1..], maxFlowLen)
      case Err(e) => Err(e)
      case Ok(rest) => Ok([PadRows(X[0], maxFlowLen)] + rest)
  }

  /** `stop` of the Python slice `[:n]` on `h` rows: a negative `n` counts from the end. */
  function SliceStop(h: nat, n: int): (stop: nat)
    ensures stop <= h
  {
    if n >= 0 then (if n < h then n else h)
    else if h + n > 0 then h + n else 0
  }

  /** The rows a sample keeps in `normalize_and_padding` before any padding. */
  function KeptRows(h: nat, maxFlowLen: int): nat
  {
    if h > maxFlowLen then SliceStop(h, maxFlowLen) else h
  }

  /**
   The body of the loop of `normalize_and_padding` for one sample: cut to
   `max_flow_len` rows, scale element-wise, then zero-pad when asked. The
   scaling (`scale_linear_bycolumn` followed by `np.nan_to_num`) is the
   parameter `scale`, applied to each value with its column index.
   */
  function NormalizeSample(m: Matrix, maxFlowLen: int, pad: bool, scale: (real, nat) -> real): (r: Result<Matrix, PyError>)
    requires m.Valid()
    ensures r.Err? <==> pad && maxFlowLen < 0
    ensures r.Ok? ==> r.value.Valid() && r.value.width == m.width
    ensures r.Ok? ==> r.value.Height() == if pad then maxFlowLen else KeptRows(m.Height(), maxFlowLen)
    ensures r.Ok? ==> forall i, j :: 0 <= i < KeptRows(m.Height(), maxFlowLen) && 0 <= j < m.width ==>
                        r.value.rows[i][j] == scale(m.rows[i][j], j)
    ensures r.Ok? ==> forall i :: KeptRows(m.Height(), maxFlowLen) <= i < r.value.Height() ==>
                        r.value.rows[i] == ZeroRow(m.width)
  {
    var cut := if m.Height() > maxFlowLen then TakeRows(m, SliceStop(m.Height(), maxFlowLen)) else m;
    var scaled := MapElems(cut, scale);
    if !pad then Ok(scaled)
    else if maxFlowLen - cut.Height() < 0 then Err(ValueError)
    else Ok(PadRows(scaled, maxFlowLen))
  }

  /** `normalize_and_padding(X, mins, maxs, max_flow_len, padding)`: every sample in turn. */
  function NormalizeAndPadding(X: seq<Matrix>, maxFlowLen: int, pad: bool, scale: (real, nat) -> real)
    : (r: Result<seq<Matrix>, PyError>)
    requires AllValid(X)
    ensures r.Err? <==> pad && maxFlowLen < 0 && |X| > 0
    ensures r.Ok? ==> |r.value| == |X|
    ensures r.Ok? ==> forall s :: 0 <= s < |X| ==> NormalizeSample(X[s], maxFlowLen, pad, scale) == Ok(r.value[s])
    decreases |X|
  {
    if |X| == 0 then Ok([])
    else
      match NormalizeSample(X[0], maxFlowLen, pad, scale)
      case Err(e) => Err(e)
      case Ok(first) =>
        match NormalizeAndPadding(X[1..], maxFlowLen, pad, scale)
        case Err(e) => Err(e)
        case Ok(rest) => Ok([first] + rest)
  }

  /**
   With a non-negative `max_flow_len` every sample comes out with exactly
   `max_flow_len` rows when padding, and `min(rows, max_flow_len)` rows
   otherwise; a longer sample keeps its first `max_flow_len` rows.
   */
  lemma NormalizeShape(X: seq<Matrix>, maxFlowLen: nat, pad: bool, scale: (real, nat) -> real, s: nat)
    requires AllValid(X) && s < |X|
    ensures var r := NormalizeAndPadding(X, maxFlowLen, pad, scale);
            && r.Ok? && |r.value| == |X|
            && r.value[s].width == X[s].width
            && r.value[s].Height() == (if pad then maxFlowLen
                                       else if X[s].Height() < maxFlowLen then X[s].Height() else maxFlowLen)
            && forall i, j :: 0 <= i < maxFlowLen && 0 <= i < X[s].Height() && 0 <= j < X[s].width ==>
                 r.value[s].rows[i][j] == scale(X[s].rows[i][j], j)
  {
  }

  /**
   Without scaling, `normalize_and_padding` with padding agrees with
   `padding` on every list `padding` accepts.
   */
  lemma {:induction false} NormalizeAgreesWithPadding(X: seq<Matrix>, maxFlowLen: nat)
    requires AllValid(X)
    requires !SomeLongerThan(X, maxFlowLen)
    ensures NormalizeAndPadding(X, maxFlowLen, true, (x: real, j: nat) => x) == Padding(X, maxFlowLen)
    decreases |X|
  {
    if |X| > 0 {
      var m := X[0];
      var id := (x: real, j: nat) => x;
      assert MapElems(m, id) == m by {
        assert forall i :: 0 <= i < m.Height() ==> MapElems(m, id).rows[i] == m.rows[i];
      }
      assert !SomeLongerThan(X[1..], maxFlowLen) by {
        forall s | 0 <= s < |X[1..]|
          ensures X[1..][s].Height() <= maxFlowLen
        {
          assert X[1..][s] == X[s + 1];
        }
      }
      NormalizeAgreesWithPadding(X[1..], maxFlowLen);
    }
  }

  /**
   The module's `MAX_FLOW_LEN` and `TIME_WINDOW` with the default arguments
   `time_window=10` and `padding=True`: the default window is the bound the
   table declares, so from the declared table `static_min_max()` leaves it
   as it was, and `find_min_max` sets column 0's max to it whatever the
   data; `normalize_and_padding` with `padding=True` and `MAX_FLOW_LEN`
   never fails and gives every sample exactly that many rows.
   */
  lemma DefaultArguments(X: seq<Matrix>, scale: (real, nat) -> real)
    requires AllValid(X)
    ensures TimeWindow == FeatureList[0].high
    ensures Table(InitialState) == FeatureList
    ensures StaticMinMax(InitialState, TimeWindow).state == InitialState
    ensures var r := FindMinMax(X, TimeWindow as real);
            r.Ok? ==> r.value.mins[0] == Fin(0.0) && r.value.maxs[0] == 10.0
    ensures var r := NormalizeAndPadding(X, MaxFlowLen, true, scale);
            && r.Ok? && |r.value| == |X|
            && forall s :: 0 <= s < |X| ==> r.value[s].Height() == MaxFlowLen == 100
  {
    assert Table(InitialState)[0] == FeatureList[0];
  }

  // ----- count_packets_in_dataset -------------------------------------------

  /** `row.sum()`: the total of a packet's features. */
  function RowSum(row: seq<real>): real
  {
    if |row| == 0 then 0.0 else row[0] + RowSum(row[1..])
  }

  /** The number of (sample, packet) positions of a dataset. */
  function TotalRows(X: seq<Matrix>): nat
    decreases |X|
  {
    if |X| == 0 then 0 else TotalRows(X[..|X| - 1]) + X[|X| - 1].Height()
  }

  /** The packets of one sample whose features do not sum to zero. */
  ghost function NonZeroIndices(rows: seq<seq<real>>): set<nat>
  {
    set i: nat | i < |rows| && RowSum(rows[i]) != 0.0
  }

  /** The (sample, packet) positions of a dataset whose features do not sum to zero. */
  ghost function NonZeroPositions(X: seq<Matrix>): set<(nat, nat)>
  {
    set s: nat, i: nat | s < |X| && i < X[s].Height() && RowSum(X[s].rows[i]) != 0.0 :: (s, i)
  }

  /** The positions of sample `s` for the packets in `S`. */
  ghost function Tagged(s: nat, S: set<nat>): set<(nat, nat)>
  {
    set i | i in S :: (s, i)
  }

  lemma {:induction false} TaggedCard(s: nat, S: set<nat>)
    ensures |Tagged(s, S)| == |S|
    decreases S
  {
    if S != {} {
      var x :| x in S;
      TaggedCard(s, S - {x});
      assert Tagged(s, S) == Tagged(s, S - {x}) + {(s, x)};
    }
  }

  /** The last packet of a sample adds itself, or nothing, to the non-zero packets before it. */
  lemma IndicesSplit(rows: seq<seq<real>>)
    requires |rows| > 0
    ensures var k := |rows| - 1;
            && k !in NonZeroIndices(rows[..k])
            && NonZeroIndices(rows) == NonZeroIndices(rows[..k]) + (if RowSum(rows[k]) != 0.0 then {k} else {})
  {
    var k := |rows| - 1;
    forall i: nat | i < k
      ensures rows[..k][i] == rows[i]
    {
    }
  }

  /** The last sample adds its own non-zero packets to the positions before it. */
  lemma PositionsSplit(X: seq<Matrix>)
    requires |X| > 0
    ensures var k := |X| - 1;
            && NonZeroPositions(X[..k]) * Tagged(k, NonZeroIndices(X[k].rows)) == {}
            && NonZeroPositions(X) == NonZeroPositions(X[..k]) + Tagged(k, NonZeroIndices(X[k].rows))
  {
    var k := |X| - 1;
    forall s: nat | s < k
      ensures X[..k][s] == X[s]
    {
    }
  }

  /** Every packet of a dataset is non-zero exactly when those of all but the last sample are and those of the last are. */
  lemma AllNonZeroSplit(X: seq<Matrix>)
    requires |X| > 0
    ensures var k := |X| - 1;
            (forall s, i :: 0 <= s < |X| && 0 <= i < X[s].Height() ==> RowSum(X[s].rows[i]) != 0.0)
            <==> (&& (forall s, i :: 0 <= s < k && 0 <= i < X[..k][s].Height() ==> RowSum(X[..k][s].rows[i]) != 0.0)
                  && (forall i :: 0 <= i < |X[k].rows| ==> RowSum(X[k].rows[i]) != 0.0))
  {
    var k := |X| - 1;
    var pre := X[..k];
    if forall s, i :: 0 <= s < |X| && 0 <= i < X[s].Height() ==> RowSum(X[s].rows[i]) != 0.0 {
      forall s, i | 0 <= s < k && 0 <= i < pre[s].Height()
        ensures RowSum(pre[s].rows[i]) != 0.0
      {
        assert pre[s] == X[s];
      }
      forall i | 0 <= i < |X[k].rows|
        ensures RowSum(X[k].rows[i]) != 0.0
      {
        assert X[k].Height() == |X[k].rows|;
      }
    }
    if && (forall s, i :: 0 <= s < k && 0 <= i < pre[s].Height() ==> RowSum(pre[s].rows[i]) != 0.0)
       && (forall i :: 0 <= i < |X[k].rows| ==> RowSum(X[k].rows[i]) != 0.0)
    {
      forall s, i | 0 <= s < |X| && 0 <= i < X[s].Height()
        ensures RowSum(X[s].rows[i]) != 0.0
      {
        if s < k {
          assert pre[s] == X[s];
        }
      }
    }
  }

  /** `np.count_nonzero` over the rows of one sample: packets whose features do not sum to zero. */
  function NonZeroRows(rows: seq<seq<real>>): (n: nat)
    ensures n == |NonZeroIndices(rows)|
    ensures n <= |rows|
    ensures n == 0 <==> forall i :: 0 <= i < |rows| ==> RowSum(rows[i]) == 0.0
    ensures n == |rows| <==> forall i :: 0 <= i < |rows| ==> RowSum(rows[i]) != 0.0
    decreases |rows|
  {
    if |rows| == 0 then 0
    else
      var k := |rows| - 1;
      IndicesSplit(rows);
      NonZeroRows(rows[..k]) + (if RowSum(rows[k]) != 0.0 then 1 else 0)
  }

  /** `np.count_nonzero(X.sum(axis=2))` for one dataset. */
  function CountPackets(X: seq<Matrix>): (n: nat)
    ensures n == |NonZeroPositions(X)|
    ensures n <= TotalRows(X)
    ensures n == 0 <==> forall s, i :: 0 <= s < |X| && 0 <= i < X[s].Height() ==> RowSum(X[s].rows[i]) == 0.0
    ensures n == TotalRows(X) <==> forall s, i :: 0 <= s < |X| && 0 <= i < X[s].Height() ==> RowSum(X[s].rows[i]) != 0.0
    decreases |X|
  {
    if |X| == 0 then 0
    else
      var k := |X| - 1;
      PositionsSplit(X);
      AllNonZeroSplit(X);
      TaggedCard(k, NonZeroIndices(X[k].rows));
      CountPackets(X[..k]) + NonZeroRows(X[k].rows)
  }

  /** `count_packets_in_dataset(X_list)`: one count per dataset, each within its number of positions. */
  function CountPacketsInDataset(XList: seq<seq<Matrix>>): (counts: seq<nat>)
    ensures |counts| == |XList|
    ensures forall k :: 0 <= k < |XList| ==>
              counts[k] == |NonZeroPositions(XList[k])| && counts[k] <= TotalRows(XList[k])
  {
    seq(|XList|, k requires 0 <= k < |XList| => CountPackets(XList[k]))
  }

  /** For a dataset of samples with `h` packets each, the count is at most samples times `h`. */
  lemma {:induction false} TotalRowsUniform(X: seq<Matrix>, h: nat)
    requires forall s :: 0 <= s < |X| ==> X[s].Height() == h
    ensures CountPackets(X) <= TotalRows(X) == |X| * h
    decreases |X|
  {
    if |X| > 0 {
      var rest := X[..|X| - 1];
      forall s | 0 <= s < |rest|
        ensures rest[s].Height() == h
      {
        assert rest[s] == X[s];
      }
      TotalRowsUniform(rest, h);
      calc {
        TotalRows(X);
        TotalRows(rest) + X[|X| - 1].Height();
        |rest| * h + h;
        { MulSucc(|rest|, h); }
        |X| * h;
      }
    }
  }

  lemma MulSucc(n: nat, h: nat)
    ensures h + n * h == (n + 1) * h
  {
  }

  // ----- all_same -----------------------------------------------------------

  /**
   `all(x == items[0] for x in items)`: true exactly when all items are
   pairwise equal; the empty list gives true without reading `items[0]`.
   */
  method AllSame<T(==)>(items: seq<T>) returns (same: bool)
    ensures same <==> forall i, j :: 0 <= i < |items| && 0 <= j < |items| ==> items[i] == items[j]
  {
    var k := 0;
    while k < |items|
      invariant 0 <= k <= |items|
      invariant forall i :: 0 <= i < k ==> items[i] == items[0]
    {
      if items[k] != items[0] {
        return false;
      }
      k := k + 1;
    }
    return true;
  }
}
