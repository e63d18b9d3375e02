/** Profit-and-loss accounting of one instrument over a run of trades, on exact reals. */
module ProfitAndLoss {
  const TOLERANCE: real := 0.000000000001

  datatype Trade = Trade(price: real, volume: real, fee: real)

  /** The part of the account that trades change. */
  datatype Position = Position(volume: real, avgPrice: real, realized: real)

  function Abs(x: real): real {
    if x < 0.0 then -x else x
  }

  /** The gain of a volume between its average price and a later price. */
  function Gain(volume: real, price: real, avgPrice: real): real {
    volume * (price - avgPrice)
  }

  predicate SameDirection(p: Position, t: Trade) {
    p.volume * t.volume > 0.0
  }

  /** The trade closes the position at its price. */
  function Closed(p: Position, t: Trade): Position {
    Position(0.0, 0.0, p.realized + (Gain(p.volume, t.price, p.avgPrice) - t.fee))
  }

  /** The trade adds to the position at the volume-weighted price, fee included. */
  function Increased(p: Position, t: Trade): Position
    requires SameDirection(p, t)
  {
    ProductPositive(p.volume, t.volume);
    Position(p.volume + t.volume, (p.avgPrice * p.volume + t.price * t.volume + t.fee) / (p.volume + t.volume), p.realized)
  }

  /** The trade closes the position and opens one the other way. */
  function Reversed(p: Position, t: Trade): Position {
    Position(p.volume + t.volume, t.price, p.realized + (Gain(p.volume, t.price, p.avgPrice) - t.fee))
  }

  /** The volume a reducing trade closes, with the sign of the position. */
  function ClosedPart(volume: real, tradeVolume: real): real {
    var sign := if volume > 0.0 then 1.0 else -1.0;
    sign * Abs(tradeVolume)
  }

  /** The trade closes part of the position. */
  function Reduced(p: Position, t: Trade): Position {
    Position(p.volume + t.volume, p.avgPrice, p.realized + (Gain(ClosedPart(p.volume, t.volume), t.price, p.avgPrice) - t.fee))
  }

  function AfterTrade(p: Position, t: Trade): Position {
    if Abs(t.volume) < TOLERANCE then p
    else if Abs(p.volume + t.volume) < TOLERANCE then Closed(p, t)
    else if SameDirection(p, t) then Increased(p, t)
    else if Abs(t.volume) > Abs(p.volume) then Reversed(p, t)
    else Reduced(p, t)
  }

  /** Both have a sign, and it is the same, or the opposite one. */
  predicate SameSign(a: real, b: real) {
    (a > 0.0 && b > 0.0) || (a < 0.0 && b < 0.0)
  }

  predicate OppositeSign(a: real, b: real) {
    (a > 0.0 && b < 0.0) || (a < 0.0 && b > 0.0)
  }

  /** The part of a position that a trade closes, with the sign of the position. */
  function ClosedBy(volume: real, tradeVolume: real): real {
    if !OppositeSign(volume, tradeVolume) then 0.0
    else if Abs(tradeVolume) > Abs(volume) then volume
    else -tradeVolume
  }

  /**
    How a trade that is outside the tolerance is booked, in words: what it closes is realized at the trade's
    price less the fee, what it leaves of an old position keeps its average price, what it adds is averaged in with
    the fee, what it opens the other way starts at its price, and an empty position has no price.
   */
  ghost predicate Books(p: Position, t: Trade, after: Position) {
    && (Abs(t.volume) < 0.000000000001 ==> after == p)
    && (Abs(t.volume) >= 0.000000000001 && Abs(p.volume + t.volume) < 0.000000000001 ==>
         && after.volume == 0.0 && after.avgPrice == 0.0
         && after.realized == p.realized + p.volume * (t.price - p.avgPrice) - t.fee)
    && (Abs(t.volume) >= 0.000000000001 && Abs(p.volume + t.volume) >= 0.000000000001 ==>
         && after.volume == p.volume + t.volume
         && (SameSign(p.volume, t.volume) ==>
              && after.realized == p.realized
              && after.avgPrice * after.volume == p.avgPrice * p.volume + t.price * t.volume + t.fee)
         && (!SameSign(p.volume, t.volume) ==>
              && after.realized == p.realized + ClosedBy(p.volume, t.volume) * (t.price - p.avgPrice) - t.fee
              && after.avgPrice == if SameSign(after.volume, p.volume) then p.avgPrice else t.price))
  }

  /** `AfterTrade` books every trade that way. */
  lemma BooksIt(p: Position, t: Trade)
    ensures Books(p, t, AfterTrade(p, t))
  {
    SignOfProduct(p.volume, t.volume);
    if Abs(t.volume) >= TOLERANCE && Abs(p.volume + t.volume) >= TOLERANCE {
      if SameSign(p.volume, t.volume) {
        CostComesBack(p.avgPrice * p.volume + t.price * t.volume + t.fee, p.volume + t.volume);
      } else {
        Signs(p.volume, t.volume);
      }
    }
  }

  /** What a trade that does not increase the position closes, and on which side the position ends up. */
  lemma Signs(volume: real, tradeVolume: real)
    requires tradeVolume != 0.0 && volume + tradeVolume != 0.0 && !SameSign(volume, tradeVolume)
    ensures Abs(tradeVolume) > Abs(volume) ==>
      ClosedBy(volume, tradeVolume) == volume && !SameSign(volume + tradeVolume, volume)
    ensures Abs(tradeVolume) <= Abs(volume) ==>
      ClosedBy(volume, tradeVolume) == ClosedPart(volume, tradeVolume) == -tradeVolume && SameSign(volume + tradeVolume, volume)
  {
  }

  lemma SignOfProduct(a: real, b: real)
    ensures a * b > 0.0 <==> SameSign(a, b)
    ensures a * b < 0.0 <==> OppositeSign(a, b)
  {
  }

  lemma CostComesBack(cost: real, volume: real)
    requires volume != 0.0
    ensures cost / volume * volume == cost
  {
  }

  lemma ProductPositive(a: real, b: real)
    requires a * b > 0.0
    ensures a + b != 0.0
  {
    assert (a + b) * b == a * b + b * b && b * b >= 0.0;
  }

  class PnL {
    var volume: real
    var avgPrice: real
    var currentPrice: real
    var realized: real
    var realizedProfit: real
    var realizedLoss: real
    var unrealized: real

    /** The realized amount splits into gains and losses. */
    ghost predicate SplitOk()
      reads this
    {
      realized == realizedProfit + realizedLoss && realizedProfit >= 0.0 && realizedLoss <= 0.0
    }

    /** A gain went to the profits, a loss to the losses. */
    ghost predicate SplitGrows(was: real, profitWas: real, lossWas: real)
      reads this
    {
      && realizedProfit == profitWas + (if realized > was then realized - was else 0.0)
      && realizedLoss == lossWas + (if realized < was then realized - was else 0.0)
    }

    /** And the unrealized one is marked at the current price. */
    ghost predicate Valid()
      reads this
    {
      && SplitOk()
      && unrealized == Gain(volume, currentPrice, avgPrice)
    }

    ghost function State(): Position
      reads this
    {
      Position(volume, avgPrice, realized)
    }

    constructor ()
      ensures Valid() && State() == Position(0.0, 0.0, 0.0) && currentPrice == 0.0
    {
      volume, avgPrice, currentPrice := 0.0, 0.0, 0.0;
      realized, realizedProfit, realizedLoss, unrealized := 0.0, 0.0, 0.0, 0.0;
    }

    method UpdateRealizedProfitLoss(value: real)
      requires SplitOk()
      modifies this`realized, this`realizedProfit, this`realizedLoss
      ensures SplitOk()
      ensures realized == old(realized) + value
      ensures SplitGrows(old(realized), old(realizedProfit), old(realizedLoss))
    {
      if value > 0.0 {
        realizedProfit := realizedProfit + value;
      } else {
        realizedLoss := realizedLoss + value;
      }
      realized := realized + value;
    }

    method UpdateCurrentPrice(price: real)
      requires Valid()
      modifies this`currentPrice, this`unrealized
      ensures Valid() && currentPrice == price && State() == old(State())
      ensures realizedProfit == old(realizedProfit) && realizedLoss == old(realizedLoss)
    {
      currentPrice := price;
      unrealized := Gain(volume, currentPrice, avgPrice);
    }

    method UpdateTrade(price: real, tradeVolume: real, fee: real)
      requires Valid()
      modifies this
      ensures Valid() && State() == AfterTrade(old(State()), Trade(price, tradeVolume, fee))
      ensures currentPrice == old(currentPrice)
      ensures Books(old(State()), Trade(price, tradeVolume, fee), State())
      ensures SplitGrows(old(realized), old(realizedProfit), old(realizedLoss))
    {
      BooksIt(State(), Trade(price, tradeVolume, fee));
      if Abs(tradeVolume) < TOLERANCE {
        return;
      } else if Abs(volume + tradeVolume) < TOLERANCE {
        Close(price, tradeVolume, fee);
      } else if volume * tradeVolume > 0.0 {
        Increase(price, tradeVolume, fee);
      } else {
        Reduce(price, tradeVolume, fee);
      }
      unrealized := Gain(volume, currentPrice, avgPrice);
    }

    method Close(price: real, tradeVolume: real, fee: real)
      requires SplitOk()
      modifies this`volume, this`avgPrice, this`unrealized, this`realized, this`realizedProfit, this`realizedLoss
      ensures SplitOk() && State() == Closed(old(State()), Trade(price, tradeVolume, fee))
      ensures SplitGrows(old(realized), old(realizedProfit), old(realizedLoss))
    {
      UpdateRealizedProfitLoss(Gain(volume, price, avgPrice) - fee);
      volume := 0.0;
      avgPrice := 0.0;
      unrealized := 0.0;
    }

    method Increase(price: real, tradeVolume: real, fee: real)
      requires SameDirection(State(), Trade(price, tradeVolume, fee))
      modifies this`volume, this`avgPrice
      ensures State() == Increased(old(State()), Trade(price, tradeVolume, fee))
    {
      ProductPositive(volume, tradeVolume);
      var totalCost := avgPrice * volume + price * tradeVolume + fee;
      volume := volume + tradeVolume;
      avgPrice := totalCost / volume;
    }

    method Reduce(price: real, tradeVolume: real, fee: real)
      requires SplitOk()
      modifies this`volume, this`avgPrice, this`realized, this`realizedProfit, this`realizedLoss
      ensures SplitOk()
      ensures State() ==
        if Abs(tradeVolume) > Abs(old(volume)) then Reversed(old(State()), Trade(price, tradeVolume, fee))
        else Reduced(old(State()), Trade(price, tradeVolume, fee))
      ensures SplitGrows(old(realized), old(realizedProfit), old(realizedLoss))
    {
      if Abs(tradeVolume) > Abs(volume) {
        UpdateRealizedProfitLoss(Gain(volume, price, avgPrice) - fee);
        avgPrice := price;
        volume := volume + tradeVolume;
      } else {
        UpdateRealizedProfitLoss(Gain(ClosedPart(volume, tradeVolume), price, avgPrice) - fee);
        volume := volume + tradeVolume;
      }
    }
  }

  // ---------------------------------------------------------------- conservation

  /** Realized profit plus the open position marked at a price. */
  function Worth(p: Position, mark: real): real {
    p.realized + Gain(p.volume, mark, p.avgPrice)
  }

  /** What a trade is worth at a mark price: the cash it moves and the volume it adds. */
  function TradeWorth(t: Trade, mark: real): real {
    -(t.price * t.volume) - t.fee + t.volume * mark
  }

  /** The trade is not swallowed by the tolerance, and leaves no residue that is. */
  predicate OutsideTolerance(p: Position, t: Trade) {
    if Abs(t.volume) < TOLERANCE then t.volume == 0.0 && t.fee == 0.0
    else Abs(p.volume + t.volume) >= TOLERANCE || p.volume + t.volume == 0.0
  }

  /** How far one trade is from conserving worth at a mark price. */
  function Drift(p: Position, t: Trade, mark: real): real {
    Worth(AfterTrade(p, t), mark) - Worth(p, mark) - TradeWorth(t, mark)
  }

  lemma ClosedWorth(p: Position, t: Trade, mark: real)
    ensures Worth(Closed(p, t), mark) == Worth(p, mark) + TradeWorth(t, mark) + (t.price - mark) * (p.volume + t.volume)
  {
    Expand(p.volume, t.price, p.avgPrice);
    Expand(p.volume, mark, p.avgPrice);
    Expand(p.volume + t.volume, t.price, mark);
    assert (p.volume + t.volume) * mark == p.volume * mark + t.volume * mark;
    assert (p.volume + t.volume) * t.price == p.volume * t.price + t.volume * t.price;
  }

  lemma IncreasedWorth(p: Position, t: Trade, mark: real)
    requires SameDirection(p, t)
    ensures Worth(Increased(p, t), mark) == Worth(p, mark) + TradeWorth(t, mark)
  {
    ProductPositive(p.volume, t.volume);
    AverageTimesVolume(p.avgPrice * p.volume + t.price * t.volume + t.fee, p.volume + t.volume, mark);
  }

  lemma AverageTimesVolume(cost: real, volume: real, mark: real)
    requires volume != 0.0
    ensures volume * (mark - cost / volume) == volume * mark - cost
  {
  }

  lemma ReversedWorth(p: Position, t: Trade, mark: real)
    ensures Worth(Reversed(p, t), mark) == Worth(p, mark) + TradeWorth(t, mark)
  {
    Expand(p.volume, t.price, p.avgPrice);
    Expand(p.volume, mark, p.avgPrice);
    Expand(p.volume + t.volume, mark, t.price);
    assert (p.volume + t.volume) * mark == p.volume * mark + t.volume * mark;
    assert (p.volume + t.volume) * t.price == p.volume * t.price + t.volume * t.price;
  }

  lemma Expand(a: real, b: real, c: real)
    ensures a * (b - c) == a * b - a * c
  {
  }

  lemma ReducedWorth(p: Position, t: Trade, mark: real)
    requires !SameDirection(p, t) && t.volume != 0.0 && Abs(t.volume) <= Abs(p.volume)
    ensures Worth(Reduced(p, t), mark) == Worth(p, mark) + TradeWorth(t, mark)
  {
    OppositeSigns(p.volume, t.volume);
    ReducedIdentity(p.realized, p.volume, p.avgPrice, t.volume, t.price, t.fee, mark);
  }

  lemma ReducedIdentity(r: real, V: real, A: real, v: real, q: real, fee: real, mark: real)
    ensures r + ((-v) * (q - A) - fee) + (V + v) * (mark - A) == r + V * (mark - A) + (-(q * v) - fee + v * mark)
  {
  }

  lemma DriftIs(p: Position, t: Trade, mark: real)
    ensures Drift(p, t, mark) ==
      if Abs(t.volume) < TOLERANCE then (t.price - mark) * t.volume + t.fee
      else if Abs(p.volume + t.volume) < TOLERANCE then (t.price - mark) * (p.volume + t.volume)
      else 0.0
  {
    if Abs(t.volume) < TOLERANCE {
    } else if Abs(p.volume + t.volume) < TOLERANCE {
      ClosedWorth(p, t, mark);
    } else if SameDirection(p, t) {
      IncreasedWorth(p, t, mark);
    } else if Abs(t.volume) > Abs(p.volume) {
      ReversedWorth(p, t, mark);
    } else {
      ReducedWorth(p, t, mark);
    }
  }

  lemma OppositeSigns(V: real, v: real)
    requires V * v <= 0.0 && v != 0.0 && Abs(v) <= Abs(V)
    ensures ClosedPart(V, v) == -v
  {
    assert V > 0.0 && v > 0.0 ==> V * v > 0.0;
    assert V < 0.0 && v < 0.0 ==> V * v > 0.0;
  }

  /** A trade conserves worth at every mark price exactly when it is outside the tolerance bands. */
  lemma TradeConserves(p: Position, t: Trade)
    ensures (forall mark :: Drift(p, t, mark) == 0.0) <==> OutsideTolerance(p, t)
  {
    forall mark
      ensures OutsideTolerance(p, t) ==> Drift(p, t, mark) == 0.0
    {
      DriftIs(p, t, mark);
    }
    if forall mark :: Drift(p, t, mark) == 0.0 {
      DriftIs(p, t, t.price);
      DriftIs(p, t, t.price - 1.0);
      assert Drift(p, t, t.price) == 0.0 && Drift(p, t, t.price - 1.0) == 0.0;
    }
  }

  function TotalCash(trades: seq<Trade>): real {
    if trades == [] then 0.0
    else var t := trades[|trades| - 1]; TotalCash(trades[..|trades| - 1]) - t.price * t.volume - t.fee
  }

  function TotalVolume(trades: seq<Trade>): real {
    if trades == [] then 0.0 else TotalVolume(trades[..|trades| - 1]) + trades[|trades| - 1].volume
  }

  ghost predicate IsTradeStep(p: Position, t: Trade, p': Position) {
    p' == AfterTrade(p, t)
  }

  /** A run from an empty account: `positions[i + 1]` is the account after `trades[i]`. */
  ghost predicate IsRun(positions: seq<Position>, trades: seq<Trade>) {
    && |positions| == |trades| + 1
    && positions[0] == Position(0.0, 0.0, 0.0)
    && (forall i {:trigger IsTradeStep(positions[i], trades[i], positions[i + 1])} ::
         0 <= i < |trades| ==> IsTradeStep(positions[i], trades[i], positions[i + 1]))
  }

  /** One trade outside the tolerance bands adds its volume, and (TradeAdds) its worth. */
  lemma VolumeAdds(positions: seq<Position>, trades: seq<Trade>, i: nat)
    requires IsRun(positions, trades) && i < |trades| && OutsideTolerance(positions[i], trades[i])
    ensures positions[i + 1].volume == positions[i].volume + trades[i].volume
  {
    assert IsTradeStep(positions[i], trades[i], positions[i + 1]);
  }

  lemma TradeAdds(positions: seq<Position>, trades: seq<Trade>, i: nat, mark: real)
    requires IsRun(positions, trades) && i < |trades| && OutsideTolerance(positions[i], trades[i])
    ensures Worth(positions[i + 1], mark) == Worth(positions[i], mark) + TradeWorth(trades[i], mark)
  {
    assert IsTradeStep(positions[i], trades[i], positions[i + 1]);
    DriftIs(positions[i], trades[i], mark);
  }

  function Sum(xs: seq<real>): real {
    if xs == [] then 0.0 else Sum(xs[..|xs| - 1]) + xs[|xs| - 1]
  }

  lemma {:induction false} Telescope(total: seq<real>, step: seq<real>, n: nat)
    requires |total| == |step| + 1 && n <= |step|
    requires forall i :: 0 <= i < |step| ==> total[i + 1] == total[i] + step[i]
    ensures total[n] == total[0] + Sum(step[..n])
  {
    if n > 0 {
      Telescope(total, step, n - 1);
      assert step[..n][..n - 1] == step[..n - 1];
    }
  }

  function Worths(trades: seq<Trade>, mark: real): seq<real> {
    seq(|trades|, i requires 0 <= i < |trades| => TradeWorth(trades[i], mark))
  }

  lemma {:induction false} WorthOfTrades(trades: seq<Trade>, mark: real)
    ensures Sum(Worths(trades, mark)) == TotalCash(trades) + TotalVolume(trades) * mark
  {
    if trades != [] {
      var before, t := trades[..|trades| - 1], trades[|trades| - 1];
      WorthOfTrades(before, mark);
      assert Worths(trades, mark)[..|trades| - 1] == Worths(before, mark);
      assert (TotalVolume(before) + t.volume) * mark == TotalVolume(before) * mark + t.volume * mark;
    }
  }

  lemma {:induction false} VolumeIsTotal(positions: seq<Position>, trades: seq<Trade>, n: nat)
    requires IsRun(positions, trades) && n <= |trades|
    requires forall i :: 0 <= i < |trades| ==> OutsideTolerance(positions[i], trades[i])
    ensures positions[n].volume == TotalVolume(trades[..n])
  {
    if n > 0 {
      VolumeIsTotal(positions, trades, n - 1);
      assert trades[..n][..n - 1] == trades[..n - 1];
      VolumeAdds(positions, trades, n - 1);
    }
  }

  lemma WorthGrowsByTrades(positions: seq<Position>, trades: seq<Trade>, mark: real)
    requires IsRun(positions, trades)
    requires forall i :: 0 <= i < |trades| ==> OutsideTolerance(positions[i], trades[i])
    ensures Worth(positions[|trades|], mark) == Worth(positions[0], mark) + Sum(Worths(trades, mark))
  {
    var n := |trades|;
    var worths := seq(n + 1, i requires 0 <= i < n + 1 => Worth(positions[i], mark));
    forall i | 0 <= i < n
      ensures worths[i + 1] == worths[i] + Worths(trades, mark)[i]
    {
      TradeAdds(positions, trades, i, mark);
    }
    Telescope(worths, Worths(trades, mark), n);
    assert Worths(trades, mark)[..n] == Worths(trades, mark);
  }

  /**
    Over any run of trades from an empty account, realized profit plus the open position marked at any
    price equals the cash that changed hands plus the volume traded at that price, which is the volume
    held (VolumeIsTotal).
   */
  lemma WorthIsConserved(positions: seq<Position>, trades: seq<Trade>, mark: real)
    requires IsRun(positions, trades)
    requires forall i :: 0 <= i < |trades| ==> OutsideTolerance(positions[i], trades[i])
    ensures Worth(positions[|trades|], mark) == TotalCash(trades) + TotalVolume(trades) * mark
  {
    WorthGrowsByTrades(positions, trades, mark);
    WorthOfTrades(trades, mark);
  }

  /** Recording the trades one by one takes the account through a run. */
  method RecordTrades(trades: seq<Trade>) returns (pnl: PnL, ghost positions: seq<Position>)
    ensures pnl.Valid() && IsRun(positions, trades) && pnl.State() == positions[|trades|]
  {
    pnl := new PnL();
    positions := [pnl.State()];
    var i := 0;
    while i < |trades|
      invariant 0 <= i <= |trades| && pnl.Valid()
      invariant IsRun(positions, trades[..i]) && pnl.State() == positions[i]
    {
      pnl.UpdateTrade(trades[i].price, trades[i].volume, trades[i].fee);
      ghost var longer := positions + [pnl.State()];
      forall k {:trigger IsTradeStep(longer[k], trades[..i + 1][k], longer[k + 1])} | 0 <= k < i + 1
        ensures IsTradeStep(longer[k], trades[..i + 1][k], longer[k + 1])
      {
        assert k < i ==> IsTradeStep(positions[k], trades[..i][k], positions[k + 1]);
      }
      positions := longer;
      i := i + 1;
    }
    assert trades[..|trades|] == trades;
  }
}
