/** A ring buffer that holds the last values pushed, and the relative strength index kept on two of them. */
module Windows {
  import opened Text

  /** The last `n` elements, or all when there are fewer. */
  function LastN<T>(s: seq<T>, n: nat): seq<T> {
    if |s| <= n then s else s[|s| - n..]
  }

  lemma LastNGrows<T>(s: seq<T>, x: T, n: nat)
    requires 0 < n
    ensures |LastN(s, n)| == if |s| < n then |s| else n
    ensures LastN(s + [x], n) == if |s| < n then LastN(s, n) + [x] else LastN(s, n)[1..] + [x]
  {
  }

  /** A ring read from its oldest value on. */
  function Read<T>(ring: seq<T>, index: nat, full: bool): seq<T>
    requires index <= |ring|
  {
    if full then ring[index..] + ring[..index] else ring[..index]
  }

  function Next(index: nat, capacity: nat): nat
    requires index < capacity
  {
    if index + 1 == capacity then 0 else index + 1
  }

  lemma NextIsModulo(index: nat, capacity: nat)
    requires index < capacity
    ensures (index + 1) % capacity == Next(index, capacity)
  {
  }

  lemma RingGrows<T>(ring: seq<T>, index: nat, full: bool, x: T)
    requires index < |ring|
    ensures |Read(ring, index, full)| == if full then |ring| else index
    ensures var index' := Next(index, |ring|);
            Read(ring[index := x], index', full || index' == 0) ==
            if full then Read(ring, index, full)[1..] + [x] else Read(ring, index, full) + [x]
  {
    var ring' := ring[index := x];
    assert ring'[..index] == ring[..index] && ring'[index + 1..] == ring[index + 1..];
    if index + 1 == |ring| {
      assert ring' == ring[..index] + [x];
      assert ring[index..] == [ring[index]];
    } else {
      assert ring'[..index + 1] == ring[..index] + [x];
      assert ring[index..][1..] == ring[index + 1..];
      if full {
        assert Read(ring, index, full)[1..] + [x] == ring[index + 1..] + (ring[..index] + [x]);
      }
    }
  }

  class RollingWindow<T(0)> {
    const data: array<T>
    const capacity: nat
    var index: nat
    var full: bool
    ghost var history: seq<T>

    /** The buffer holds the last values of the history. */
    ghost predicate Valid()
      reads this, data
    {
      && data.Length == capacity
      && (if capacity == 0 then index == 0 && !full else index < capacity)
      && (full <==> 0 < capacity <= |history|)
      && (capacity == 0 ==> history == [])
      && Read(data[..], index, full) == LastN(history, capacity)
    }

    constructor (capacity: nat)
      ensures Valid() && history == [] && this.capacity == capacity && fresh(data)
    {
      data := new T[capacity];
      this.capacity := capacity;
      index, full, history := 0, false, [];
    }

    method Push(value: T)
      requires Valid() && 0 < capacity
      modifies this, data
      ensures Valid() && history == old(history) + [value]
    {
      hide Read;
      LastNGrows(history, value, capacity);
      RingGrows(data[..], index, full, value);
      NextIsModulo(index, capacity);
      ghost var before := data[..];
      data[index] := value;
      assert data[..] == before[index := value];
      index := (index + 1) % capacity;
      if index == 0 {
        full := true;
      }
      history := history + [value];
    }

    method Values() returns (values: seq<T>)
      requires Valid()
      ensures values == LastN(history, capacity)
    {
      if full {
        values := data[index..] + data[..index];
      } else {
        values := data[..index];
      }
    }

    method Len() returns (n: nat)
      requires Valid()
      ensures n == |LastN(history, capacity)|
    {
      n := if full then capacity else index;
    }

    method Last() returns (last: Option<T>)
      requires Valid()
      ensures last == if history == [] then None else Some(history[|history| - 1])
    {
      assert LastN(history, capacity) != [] ==>
               Read(data[..], index, full)[|LastN(history, capacity)| - 1] == history[|history| - 1];
      if !full && index == 0 {
        last := None;
      } else if index == 0 {
        last := Some(data[capacity - 1]);
      } else {
        last := Some(data[index - 1]);
      }
    }
  }

  // ---------- means ----------

  function Total(s: seq<real>): real {
    if s == [] then 0.0 else Total(s[..|s| - 1]) + s[|s| - 1]
  }

  function Mean(s: seq<real>): real {
    if s == [] then 0.0 else Total(s) / |s| as real
  }

  /** The mean, times how many there are, is their sum, taken in any split. */
  lemma {:induction false} MeanInFigures(a: seq<real>, b: seq<real>)
    ensures a != [] ==> Mean(a) * |a| as real == Total(a)
    ensures Total(a + b) == Total(a) + Total(b) && Mean([]) == Total([]) == 0.0 && forall x: real :: Total([x]) == x
  {
    if b == [] {
      assert a + b == a;
    } else {
      var rest := b[..|b| - 1];
      MeanInFigures(a, rest);
      assert (a + b)[..|a + b| - 1] == a + rest;
    }
    assert forall x: real :: [x][..0] == [];
  }

  method MeanOf(window: RollingWindow<real>) returns (mean: real)
    requires window.Valid()
    ensures mean == Mean(LastN(window.history, window.capacity))
  {
    var values := window.Values();
    if values == [] {
      return 0.0;
    }
    var sum := 0.0;
    for i := 0 to |values|
      invariant sum == Total(values[..i])
    {
      assert values[..i + 1][..i] == values[..i];
      sum := sum + values[i];
    }
    assert values[..|values|] == values;
    mean := sum / |values| as real;
  }

  // ---------- the index ----------

  function Gain(change: real): real {
    if change > 0.0 then change else 0.0
  }

  function Loss(change: real): real {
    if change > 0.0 then 0.0 else -change
  }

  function Gains(changes: seq<real>): seq<real> {
    seq(|changes|, i requires 0 <= i < |changes| => Gain(changes[i]))
  }

  function Losses(changes: seq<real>): seq<real> {
    seq(|changes|, i requires 0 <= i < |changes| => Loss(changes[i]))
  }

  /** The changes recorded: a price counts against the one before it if that one was positive. */
  function Changes(prices: seq<real>): seq<real> {
    if |prices| < 2 then []
    else
      var before, last := prices[|prices| - 2], prices[|prices| - 1];
      Changes(prices[..|prices| - 1]) + if before > 0.0 then [last - before] else []
  }

  /** The relative strength index of a window of changes: the share of the gains in all movement. */
  function Strength(changes: seq<real>): real {
    TotalsOfChanges(changes);
    var up, down := Total(Gains(changes)), Total(Losses(changes));
    if down == 0.0 then 100.0 else 100.0 * up / (up + down)
  }

  lemma {:induction false} TotalsOfChanges(changes: seq<real>)
    ensures 0.0 <= Total(Gains(changes)) && 0.0 <= Total(Losses(changes))
    ensures Total(Gains(changes)) - Total(Losses(changes)) == Total(changes)
  {
    if changes != [] {
      var rest := changes[..|changes| - 1];
      TotalsOfChanges(rest);
      assert Gains(changes)[..|changes| - 1] == Gains(rest);
      assert Losses(changes)[..|changes| - 1] == Losses(rest);
    }
  }

  lemma TotalGrows(s: seq<real>, x: real)
    ensures Total(s + [x]) == Total(s) + x
  {
    assert (s + [x])[..|s|] == s;
  }

  lemma {:induction false} ChangesTelescope(prices: seq<real>, m: nat)
    requires forall i :: 0 <= i < |prices| ==> prices[i] > 0.0
    requires prices != [] && m < |prices|
    ensures |Changes(prices)| == |prices| - 1
    ensures Total(LastN(Changes(prices), m)) == prices[|prices| - 1] - prices[|prices| - 1 - m]
  {
    hide Changes, Total, LastN;
    var n := |prices|;
    if n == 1 {
      FewPrices(prices);
      NoWindow([]);
    } else {
      var front, change := prices[..n - 1], prices[n - 1] - prices[n - 2];
      ChangesUnfold(prices);
      if m == 0 {
        ChangesTelescope(front, 0);
        NoWindow(Changes(prices));
      } else {
        ChangesTelescope(front, m - 1);
        OneShorter(Changes(front), change, m);
        TotalGrows(LastN(Changes(front), m - 1), change);
      }
    }
  }

  lemma NoWindow(changes: seq<real>)
    ensures LastN(changes, 0) == [] && Total([]) == 0.0
  {
  }

  lemma OneShorter<T>(s: seq<T>, x: T, m: nat)
    requires 0 < m
    ensures LastN(s + [x], m) == LastN(s, m - 1) + [x]
  {
  }

  /** For positive prices: gains less losses over the window are the net price change across it. */
  lemma GainsLessLosses(prices: seq<real>, period: nat)
    requires prices != [] && forall i :: 0 <= i < |prices| ==> prices[i] > 0.0
    ensures var window := LastN(Changes(prices), period);
            && |window| == (if |prices| - 1 <= period then |prices| - 1 else period)
            && Total(Gains(window)) - Total(Losses(window)) == prices[|prices| - 1] - prices[|prices| - 1 - |window|]
  {
    var m := if |prices| - 1 <= period then |prices| - 1 else period;
    ChangesTelescope(prices, m);
    assert LastN(Changes(prices), period) == LastN(Changes(prices), m);
    TotalsOfChanges(LastN(Changes(prices), period));
  }

  lemma StrengthRange(changes: seq<real>)
    ensures 0.0 <= Strength(changes) <= 100.0
  {
    TotalsOfChanges(changes);
    if Total(Losses(changes)) != 0.0 {
      ShareRange(Total(Gains(changes)), Total(Losses(changes)));
    }
  }

  lemma ShareRange(up: real, down: real)
    requires 0.0 <= up && 0.0 <= down && up + down != 0.0
    ensures 0.0 <= 100.0 * up / (up + down) <= 100.0
  {
    var share := up / (up + down);
    assert share * (up + down) == up;
    assert (1.0 - share) * (up + down) == down;
    SignOf(share, up + down);
    SignOf(1.0 - share, up + down);
    assert 100.0 * up / (up + down) == 100.0 * share;
  }

  lemma SignOf(x: real, s: real)
    requires 0.0 < s && 0.0 <= x * s
    ensures 0.0 <= x
  {
  }

  /** The form the code computes, from averages over `n` changes, is the share of the gains. */
  lemma {:induction false} StrengthFromMeans(up: real, down: real, n: nat)
    requires 0 < n && 0.0 <= up && 0.0 < down
    ensures var gain, loss := up / n as real, down / n as real;
            loss != 0.0 && 1.0 + gain / loss != 0.0 && 100.0 - 100.0 / (1.0 + gain / loss) == 100.0 * up / (up + down)
  {
    var gain, loss := up / n as real, down / n as real;
    var sum, ratio := up + down, up / down;
    var a, b := up / sum, down / sum;
    assert gain * n as real == up && loss * n as real == down && ratio * down == up;
    assert a * sum == up && b * sum == down;
    Cancels(ratio * loss, gain, n as real) by {
      assert (ratio * loss) * n as real == ratio * (loss * n as real);
    }
    assert gain / loss == ratio;
    Cancels(a + b, 1.0, sum);
    Cancels(b * (1.0 + ratio), 1.0, sum) by {
      assert b * (1.0 + ratio) * sum == (b * sum) * (1.0 + ratio);
      assert down * (1.0 + ratio) == down + up;
    }
    assert 100.0 / (1.0 + ratio) == 100.0 * b;
    assert 100.0 * up / sum == 100.0 * a;
  }

  lemma Cancels(x: real, y: real, s: real)
    requires s != 0.0 && x * s == y * s
    ensures x == y
  {
  }

  class RSIState {
    const gains: RollingWindow<real>
    const losses: RollingWindow<real>
    var lastPrice: real
    ghost var prices: seq<real>

    /** Both windows move in lockstep, over the gains and over the losses of the same changes. */
    ghost predicate Valid()
      reads this, gains, gains.data, losses, losses.data
    {
      && gains != losses && gains.data != losses.data
      && gains.Valid() && losses.Valid() && 0 < gains.capacity == losses.capacity
      && gains.history == Gains(Changes(prices)) && losses.history == Losses(Changes(prices))
      && lastPrice == if prices == [] then 0.0 else prices[|prices| - 1]
    }

    constructor (period: nat)
      requires 0 < period
      ensures Valid() && prices == [] && gains.capacity == period
      ensures fresh(gains) && fresh(losses) && fresh(gains.data) && fresh(losses.data)
    {
      gains := new RollingWindow(period);
      losses := new RollingWindow(period);
      lastPrice := 0.0;
      prices := [];
    }

    /** Records a price; a change goes to one window and a zero to the other. */
    method Record(price: real)
      requires Valid()
      modifies this, gains, gains.data, losses, losses.data
      ensures Valid() && prices == old(prices) + [price]
    {
      hide RollingWindow.Valid, Changes;
      RecordedChange(prices, price);
      if lastPrice > 0.0 {
        var change := price - lastPrice;
        ChangesSplit(Changes(prices), change);
        if change > 0.0 {
          gains.Push(change);
          losses.Push(0.0);
        } else {
          gains.Push(0.0);
          losses.Push(-change);
        }
      }
      lastPrice := price;
      prices := prices + [price];
    }

    method Update(price: real) returns (rsi: real)
      requires Valid()
      modifies this, gains, gains.data, losses, losses.data
      ensures Valid() && prices == old(prices) + [price]
      ensures rsi == Strength(LastN(Changes(prices), gains.capacity)) && 0.0 <= rsi <= 100.0
    {
      hide RollingWindow.Valid, Changes, Mean, Strength;
      Record(price);
      var avgGain := MeanOf(gains);
      var avgLoss := MeanOf(losses);
      ghost var window := LastN(Changes(prices), gains.capacity);
      assert LastN(gains.history, gains.capacity) == Gains(window);
      assert LastN(losses.history, losses.capacity) == Losses(window);
      MeansToStrength(window);
      StrengthRange(window);
      if avgLoss == 0.0 {
        rsi := 100.0;
      } else {
        var rs := avgGain / avgLoss;
        rsi := 100.0 - 100.0 / (1.0 + rs);
      }
    }
  }

  lemma ChangesSplit(changes: seq<real>, change: real)
    ensures Gains(changes + [change]) == Gains(changes) + [Gain(change)]
    ensures Losses(changes + [change]) == Losses(changes) + [Loss(change)]
  {
  }

  lemma {:induction false} RecordedChange(prices: seq<real>, price: real)
    ensures Changes(prices + [price]) ==
            if prices != [] && prices[|prices| - 1] > 0.0 then Changes(prices) + [price - prices[|prices| - 1]]
              else Changes(prices)
  {
    hide Changes;
    var longer := prices + [price];
    assert longer[..|longer| - 1] == prices;
    if prices != [] {
      assert longer[|longer| - 2] == prices[|prices| - 1];
      ChangesUnfold(longer);
    } else {
      FewPrices(longer);
      FewPrices(prices);
    }
  }

  lemma FewPrices(prices: seq<real>)
    requires |prices| < 2
    ensures Changes(prices) == []
  {
  }

  lemma {:induction false} ChangesUnfold(prices: seq<real>)
    requires 2 <= |prices|
    ensures var before, last := prices[|prices| - 2], prices[|prices| - 1];
            Changes(prices) ==
            if before > 0.0 then Changes(prices[..|prices| - 1]) + [last - before] else Changes(prices[..|prices| - 1])
  {
    assert Changes(prices[..|prices| - 1]) + [] == Changes(prices[..|prices| - 1]);
  }

  /** What the code makes of the two means is the strength of the window. */
  lemma MeansToStrength(window: seq<real>)
    ensures var gain, loss := Mean(Gains(window)), Mean(Losses(window));
            if loss == 0.0 then Strength(window) == 100.0
            else 1.0 + gain / loss != 0.0 && Strength(window) == 100.0 - 100.0 / (1.0 + gain / loss)
  {
    TotalsOfChanges(window);
    ZeroMean(Losses(window));
    if Total(Losses(window)) != 0.0 {
      StrengthFromMeans(Total(Gains(window)), Total(Losses(window)), |window|);
    }
  }

  lemma ZeroMean(s: seq<real>)
    ensures Mean(s) == 0.0 <==> Total(s) == 0.0
  {
    if s != [] {
      assert Mean(s) * |s| as real == Total(s);
    }
  }
}
