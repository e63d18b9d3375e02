/**
  The two-sided order book with its moving price window: updates, snapshots, the rebase that
  follows the best bid, and the top-of-book snapshot that is handed out. Prices are whole ticks.
 */
module OrderBooks {
  import opened OrderBookSides

  datatype UpdateType = Add | Update | Remove

  datatype Level = Level(price: int, quantity: real)

  // ---------------------------------------------------------------- specification on plain maps

  datatype Book = Book(base: int, depth: nat, bids: Levels, asks: Levels)

  /** The elementary changes a run of the book is made of. */
  datatype Op = Reset | Set(side: SideType, price: int, quantity: real) | Rebase(base: int)

  function SideOf(book: Book, side: SideType): Levels {
    if side.Bid? then book.bids else book.asks
  }

  function ApplyOp(book: Book, op: Op): Book {
    match op
    case Reset => book.(bids := map[], asks := map[])
    case Set(Bid, price, quantity) => book.(bids := SetLevels(book.bids, book.base, book.depth, price, quantity))
    case Set(Ask, price, quantity) => book.(asks := SetLevels(book.asks, book.base, book.depth, price, quantity))
    case Rebase(base) =>
      Book(base, book.depth, Rebased(book.bids, base, book.depth), Rebased(book.asks, base, book.depth))
  }

  function ApplyAll(book: Book, ops: seq<Op>): Book {
    if ops == [] then book else ApplyOp(ApplyAll(book, ops[..|ops| - 1]), ops[|ops| - 1])
  }

  function SetOps(side: SideType, levels: seq<Level>): seq<Op> {
    seq(|levels|, i requires 0 <= i < |levels| => Set(side, levels[i].price, levels[i].quantity))
  }

  function SnapshotOps(bids: seq<Level>, asks: seq<Level>): seq<Op> {
    [Reset] + SetOps(Bid, bids) + SetOps(Ask, asks)
  }

  /** Every level is positive and lies in the window. */
  ghost predicate AllInside(levels: Levels, base: int, depth: nat) {
    forall p :: p in levels ==> levels[p] > 0.0 && InWindow(base, depth, p)
  }

  ghost predicate WellFormed(book: Book) {
    AllInside(book.bids, book.base, book.depth) && AllInside(book.asks, book.base, book.depth)
  }

  /** The price is in the window and within delta ticks of its border. */
  predicate InTriggerZone(base: int, depth: nat, price: int, delta: real) {
    && InWindow(base, depth, price)
    && var lowest := base - CenterIndex(depth);
       var highest := base - CenterIndex(depth) + depth - 1;
       price as real <= lowest as real + delta || price as real >= highest as real - delta
  }

  ghost predicate NeedsRebase(book: Book, delta: real) {
    exists bid, ask :: IsBest(Bid, book.bids, bid) && IsBest(Ask, book.asks, ask)
      && (InTriggerZone(book.base, book.depth, bid, delta) || InTriggerZone(book.base, book.depth, ask, delta))
  }

  ghost function MaybeRebaseOps(book: Book, delta: real): seq<Op> {
    if NeedsRebase(book, delta) then
      var bid, ask :| IsBest(Bid, book.bids, bid) && IsBest(Ask, book.asks, ask);
      [Rebase(bid)]
    else []
  }

  ghost function AfterMaybeRebase(book: Book, delta: real): Book {
    ApplyAll(book, MaybeRebaseOps(book, delta))
  }

  /** `top` is the best `count` levels, best first: all of them if there are no more. */
  ghost predicate IsTopOf(side: SideType, top: seq<Level>, levels: Levels, count: nat) {
    && |top| <= count
    && (forall i :: 0 <= i < |top| ==> top[i].price in levels && levels[top[i].price] == top[i].quantity)
    && (forall i, j :: 0 <= i < j < |top| ==> Better(side, top[i].price, top[j].price))
    && (forall p :: p in levels ==>
         || (exists i :: 0 <= i < |top| && top[i].price == p)
         || (|top| == count && forall i :: 0 <= i < |top| ==> Better(side, top[i].price, p)))
  }

  // ---------------------------------------------------------------- the snapshot object

  const SNAPSHOT_LEVELS: nat := 200

  class OrderBookSnapShot {
    var bids: seq<Level>
    var asks: seq<Level>
    var bidsSize: nat
    var asksSize: nat
    var maxLevels: nat

    predicate Valid()
      reads this
    {
      |bids| == |asks| == SNAPSHOT_LEVELS && bidsSize <= SNAPSHOT_LEVELS && asksSize <= SNAPSHOT_LEVELS
    }

    constructor ()
      ensures Valid() && bidsSize == asksSize == 0 && maxLevels == SNAPSHOT_LEVELS
    {
      bids := seq(SNAPSHOT_LEVELS, _ => Level(0, 0.0));
      asks := seq(SNAPSHOT_LEVELS, _ => Level(0, 0.0));
      bidsSize, asksSize, maxLevels := 0, 0, SNAPSHOT_LEVELS;
    }

    method AddBid(price: int, quantity: real)
      requires Valid() && (bidsSize < maxLevels ==> bidsSize < SNAPSHOT_LEVELS)
      modifies this`bids, this`bidsSize
      ensures Valid()
      ensures bids[..bidsSize] ==
        old(bids[..bidsSize]) + (if old(bidsSize) < maxLevels then [Level(price, quantity)] else [])
    {
      if bidsSize >= maxLevels {
        return;
      }
      bids := bids[bidsSize := Level(price, quantity)];
      bidsSize := bidsSize + 1;
    }

    method AddAsk(price: int, quantity: real)
      requires Valid() && (asksSize < maxLevels ==> asksSize < SNAPSHOT_LEVELS)
      modifies this`asks, this`asksSize
      ensures Valid()
      ensures asks[..asksSize] ==
        old(asks[..asksSize]) + (if old(asksSize) < maxLevels then [Level(price, quantity)] else [])
    {
      if asksSize >= maxLevels {
        return;
      }
      asks := asks[asksSize := Level(price, quantity)];
      asksSize := asksSize + 1;
    }
  }

  // ---------------------------------------------------------------- the book object

  class OrderBook {
    const bids: OrderBookSide
    const asks: OrderBookSide
    var rebaseDelta: real

    ghost predicate Valid()
      reads this, bids, asks
    {
      && bids != asks && bids.side == Bid && asks.side == Ask
      && bids.Valid() && asks.Valid()
      && bids.basePrice == asks.basePrice && bids.Depth() == asks.Depth()
    }

    ghost function State(): Book
      reads this, bids, asks
    {
      Book(bids.basePrice, bids.Depth(), bids.Contents(), asks.Contents())
    }

    constructor (basePrice: int, depth: nat, rebaseDelta: real)
      requires 0 < depth < INVALID_INDEX
      ensures Valid() && fresh(bids) && fresh(asks)
      ensures State() == Book(basePrice, depth, map[], map[]) && this.rebaseDelta == rebaseDelta
    {
      bids := new OrderBookSide(Bid, basePrice, depth);
      asks := new OrderBookSide(Ask, basePrice, depth);
      this.rebaseDelta := rebaseDelta;
    }

    method SetSideLevel(side: SideType, price: int, quantity: real)
      requires Valid()
      modifies bids, asks
      ensures Valid() && State() == ApplyOp(old(State()), Set(side, price, quantity))
    {
      if side == Bid {
        bids.SetLevel(price, quantity);
      } else {
        asks.SetLevel(price, quantity);
      }
    }

    method ApplyLevels(side: SideType, levels: seq<Level>, ghost start: Book, ghost done: seq<Op>)
      requires Valid() && State() == ApplyAll(start, done)
      modifies bids, asks
      ensures Valid() && State() == ApplyAll(start, done + SetOps(side, levels))
    {
      assert done + SetOps(side, levels)[..0] == done;
      var i := 0;
      while i < |levels|
        invariant 0 <= i <= |levels|
        invariant Valid() && State() == ApplyAll(start, done + SetOps(side, levels)[..i])
      {
        SetSideLevel(side, levels[i].price, levels[i].quantity);
        OneMoreSet(start, done, side, levels, i);
        i := i + 1;
      }
      assert SetOps(side, levels)[..|levels|] == SetOps(side, levels);
    }

    method Reset()
      requires Valid()
      modifies bids, asks
      ensures Valid() && State() == ApplyOp(old(State()), Op.Reset)
    {
      bids.Clear();
      asks.Clear();
    }

    /** Empties the book and moves its window. */
    method ResetBasePrice(newBase: int)
      requires Valid()
      modifies bids, asks
      ensures Valid() && State() == ApplyOp(ApplyOp(old(State()), Op.Reset), Rebase(newBase))
    {
      bids.ResetBasePrice(newBase);
      asks.ResetBasePrice(newBase);
    }

    method SetRebaseDelta(delta: real)
      requires Valid()
      modifies this`rebaseDelta
      ensures Valid() && State() == old(State()) && rebaseDelta == delta
    {
      rebaseDelta := delta;
    }

    /** Replaces the whole book by a snapshot, then rebases if needed. */
    method ApplySnapshot(newBids: seq<Level>, newAsks: seq<Level>)
      requires Valid()
      modifies bids, asks
      ensures Valid()
      ensures State() == AfterMaybeRebase(ApplyAll(old(State()), SnapshotOps(newBids, newAsks)), rebaseDelta)
      ensures exists written ::
        Replaces(old(State()), newBids, newAsks, written) && State() == AfterMaybeRebase(written, rebaseDelta)
    {
      ghost var start := State();
      Reset();
      assert ApplyAll(start, [Op.Reset]) == ApplyOp(ApplyAll(start, []), Op.Reset);
      ApplyLevels(Bid, newBids, start, [Op.Reset]);
      ApplyLevels(Ask, newAsks, start, [Op.Reset] + SetOps(Bid, newBids));
      SnapshotReplaces(start, newBids, newAsks);
      MaybeRebase();
    }

    method ApplyUpdateWithoutRebase(side: SideType, updateType: UpdateType, price: int, quantity: real)
      requires Valid()
      modifies bids, asks
      ensures Valid()
      ensures State() == ApplyOp(old(State()), Set(side, price, if updateType.Remove? then 0.0 else quantity))
    {
      match updateType {
        case Add => SetSideLevel(side, price, quantity);
        case Update => SetSideLevel(side, price, quantity);
        case Remove => SetSideLevel(side, price, 0.0);
      }
    }

    method ApplyUpdate(side: SideType, updateType: UpdateType, price: int, quantity: real)
      requires Valid()
      modifies bids, asks
      ensures Valid()
      ensures State() == AfterMaybeRebase(
        ApplyOp(old(State()), Set(side, price, if updateType.Remove? then 0.0 else quantity)), rebaseDelta)
    {
      ApplyUpdateWithoutRebase(side, updateType, price, quantity);
      MaybeRebase();
    }

    method ShouldRebase() returns (yes: bool)
      requires Valid()
      ensures yes <==> NeedsRebase(State(), rebaseDelta)
    {
      bids.TopIsBest();
      asks.TopIsBest();
      if !bids.HasTop() || !asks.HasTop() {
        return false;
      }
      var bid, ask := bids.TopPrice(), asks.TopPrice();
      yes := InTriggerZone(bids.basePrice, |bids.levels|, bid, rebaseDelta)
          || InTriggerZone(asks.basePrice, |asks.levels|, ask, rebaseDelta);
      BestIsUnique(Bid, bids.Contents(), bid);
      BestIsUnique(Ask, asks.Contents(), ask);
      assert IsBest(Bid, State().bids, bid) && IsBest(Ask, State().asks, ask);
    }

    method MaybeRebase()
      requires Valid()
      modifies bids, asks
      ensures Valid() && State() == AfterMaybeRebase(old(State()), rebaseDelta)
    {
      ghost var start := State();
      var yes := ShouldRebase();
      if !yes {
        return;
      }
      bids.TopIsBest();
      var newBase := bids.TopPrice();
      BestIsUnique(Bid, bids.Contents(), newBase);
      MoveToNewBasePrice(newBase);
      assert ApplyAll(start, [Rebase(newBase)]) == ApplyOp(ApplyAll(start, []), Rebase(newBase));
      assert MaybeRebaseOps(start, rebaseDelta) == [Rebase(newBase)];
    }

    method MoveToNewBasePrice(newBase: int)
      requires Valid()
      modifies bids, asks
      ensures Valid() && State() == ApplyOp(old(State()), Rebase(newBase))
    {
      bids.MoveToNewBasePrice(newBase);
      asks.MoveToNewBasePrice(newBase);
    }

    /** Writes the best `count` levels of each side into the snapshot object. */
    method GetOrderBookSnapshot(snapshot: OrderBookSnapShot, count: nat)
      requires Valid() && snapshot.Valid() && count <= SNAPSHOT_LEVELS
      modifies snapshot
      ensures snapshot.Valid()
      ensures IsTopOf(Bid, snapshot.bids[..snapshot.bidsSize], State().bids, count)
      ensures IsTopOf(Ask, snapshot.asks[..snapshot.asksSize], State().asks, count)
    {
      snapshot.maxLevels := count;
      snapshot.bidsSize, snapshot.asksSize := 0, 0;
      CollectBids(snapshot, count);
      CollectAsks(snapshot, count);
    }

    method CollectBid(snapshot: OrderBookSnapShot, index: nat)
      requires bids.Valid() && snapshot.Valid() && index < |bids.levels|
      requires snapshot.bidsSize < snapshot.maxLevels <= SNAPSHOT_LEVELS
      modifies snapshot`bids, snapshot`bidsSize
      ensures snapshot.Valid() && old(snapshot.bidsSize) <= snapshot.bidsSize <= snapshot.maxLevels
      ensures snapshot.bids[..snapshot.bidsSize] ==
        Extended(old(snapshot.bids[..snapshot.bidsSize]), bids.Contents(), bids.IndexToPrice(index))
    {
      var quantity := bids.levels[index];
      bids.IndexedLevel(index);
      if quantity > 0.0 {
        snapshot.AddBid(bids.IndexToPrice(index), quantity);
      }
    }

    method CollectAsk(snapshot: OrderBookSnapShot, index: nat)
      requires asks.Valid() && snapshot.Valid() && index < |asks.levels|
      requires snapshot.asksSize < snapshot.maxLevels <= SNAPSHOT_LEVELS
      modifies snapshot`asks, snapshot`asksSize
      ensures snapshot.Valid() && old(snapshot.asksSize) <= snapshot.asksSize <= snapshot.maxLevels
      ensures snapshot.asks[..snapshot.asksSize] ==
        Extended(old(snapshot.asks[..snapshot.asksSize]), asks.Contents(), asks.IndexToPrice(index))
    {
      var quantity := asks.levels[index];
      asks.IndexedLevel(index);
      if quantity > 0.0 {
        snapshot.AddAsk(asks.IndexToPrice(index), quantity);
      }
    }

    method CollectBids(snapshot: OrderBookSnapShot, count: nat)
      requires bids.side == Bid && bids.Valid() && snapshot.Valid() && count <= SNAPSHOT_LEVELS
      requires snapshot.maxLevels == count && snapshot.bidsSize == 0
      modifies snapshot`bids, snapshot`bidsSize
      ensures snapshot.Valid()
      ensures IsTopOf(Bid, snapshot.bids[..snapshot.bidsSize], bids.Contents(), count)
    {
      bids.TopIsBest();
      ghost var levels := bids.Contents();
      if bids.HasTop() {
        var i := bids.topIndex + 1;
        ghost var top := snapshot.bids[..snapshot.bidsSize];
        while i > 0 && snapshot.bidsSize < count
          invariant i <= bids.topIndex + 1 && snapshot.Valid() && snapshot.bidsSize <= count
          invariant top == snapshot.bids[..snapshot.bidsSize] && CollectedDown(top, levels, bids.IndexToPrice(i))
        {
          assert bids.IndexToPrice(i) == bids.IndexToPrice(i - 1) + 1;
          i := i - 1;
          CollectBid(snapshot, i);
          CollectedDownNext(top, levels, bids.IndexToPrice(i));
          top := Extended(top, levels, bids.IndexToPrice(i));
        }
        CollectedDownIsTop(top, levels, bids.IndexToPrice(i), count);
      }
    }

    method CollectAsks(snapshot: OrderBookSnapShot, count: nat)
      requires asks.side == Ask && asks.Valid() && snapshot.Valid() && count <= SNAPSHOT_LEVELS
      requires snapshot.maxLevels == count && snapshot.asksSize == 0
      modifies snapshot`asks, snapshot`asksSize
      ensures snapshot.Valid()
      ensures IsTopOf(Ask, snapshot.asks[..snapshot.asksSize], asks.Contents(), count)
    {
      asks.TopIsBest();
      ghost var levels := asks.Contents();
      if asks.HasTop() {
        var index := asks.topIndex;
        ghost var top, limit := snapshot.asks[..snapshot.asksSize], asks.IndexToPrice(index);
        assert CollectedUp(top, levels, limit);
        while index < |asks.levels| && snapshot.asksSize < count
          invariant asks.topIndex <= index <= |asks.levels| && snapshot.Valid() && snapshot.asksSize <= count
          invariant limit == asks.IndexToPrice(index)
          invariant top == snapshot.asks[..snapshot.asksSize] && CollectedUp(top, levels, limit)
        {
          CollectAsk(snapshot, index);
          CollectedUpNext(top, levels, limit);
          top, limit := Extended(top, levels, limit), limit + 1;
          index := index + 1;
        }
        assert snapshot.asksSize < count ==> forall p :: p in levels ==> p < limit;
        CollectedUpIsTop(top, levels, limit, count);
      }
    }
  }

  /** The levels at `limit` and above, highest first. */
  ghost predicate CollectedDown(top: seq<Level>, levels: Levels, limit: int) {
    && (forall i :: 0 <= i < |top| ==> top[i].price in levels && levels[top[i].price] == top[i].quantity && top[i].price >= limit)
    && (forall i, j :: 0 <= i < j < |top| ==> top[i].price > top[j].price)
    && (forall p :: p in levels && p >= limit ==> exists i :: 0 <= i < |top| && top[i].price == p)
  }

  /** The levels below `limit`, lowest first. */
  ghost predicate CollectedUp(top: seq<Level>, levels: Levels, limit: int) {
    && (forall i :: 0 <= i < |top| ==> top[i].price in levels && levels[top[i].price] == top[i].quantity && top[i].price < limit)
    && (forall i, j :: 0 <= i < j < |top| ==> top[i].price < top[j].price)
    && (forall p :: p in levels && p < limit ==> exists i :: 0 <= i < |top| && top[i].price == p)
  }

  lemma CollectedDownIsTop(top: seq<Level>, levels: Levels, limit: int, count: nat)
    requires CollectedDown(top, levels, limit) && |top| <= count
    requires |top| == count || forall p :: p in levels ==> p >= limit
    ensures IsTopOf(Bid, top, levels, count)
  {
  }

  lemma CollectedUpIsTop(top: seq<Level>, levels: Levels, limit: int, count: nat)
    requires CollectedUp(top, levels, limit) && |top| <= count
    requires |top| == count || forall p :: p in levels ==> p < limit
    ensures IsTopOf(Ask, top, levels, count)
  {
  }

  ghost function Extended(top: seq<Level>, levels: Levels, price: int): seq<Level> {
    if price in levels then top + [Level(price, levels[price])] else top
  }

  lemma CollectedDownNext(top: seq<Level>, levels: Levels, price: int)
    requires CollectedDown(top, levels, price + 1)
    ensures CollectedDown(Extended(top, levels, price), levels, price)
  {
    var next := Extended(top, levels, price);
    forall p | p in levels && p >= price
      ensures exists i :: 0 <= i < |next| && next[i].price == p
    {
      if p == price {
        assert next[|top|].price == p;
      } else {
        var i :| 0 <= i < |top| && top[i].price == p;
        assert next[i].price == p;
      }
    }
  }

  lemma CollectedUpNext(top: seq<Level>, levels: Levels, price: int)
    requires CollectedUp(top, levels, price)
    ensures CollectedUp(Extended(top, levels, price), levels, price + 1)
  {
    var next := Extended(top, levels, price);
    forall p | p in levels && p < price + 1
      ensures exists i :: 0 <= i < |next| && next[i].price == p
    {
      if p == price {
        assert next[|top|].price == p;
      } else {
        var i :| 0 <= i < |top| && top[i].price == p;
        assert next[i].price == p;
      }
    }
  }

  lemma BestIsUnique(side: SideType, levels: Levels, price: int)
    requires IsBest(side, levels, price)
    ensures forall p :: IsBest(side, levels, p) ==> p == price
  {
  }

  // ---------------------------------------------------------------- rebase

  lemma BestExists(side: SideType, levels: Levels) returns (best: int)
    requires levels != map[]
    ensures IsBest(side, levels, best)
    decreases |levels|
  {
    assert (forall p :: p !in levels) ==> levels == map[];
    var p :| p in levels;
    var rest := levels - {p};
    if rest == map[] {
      assert forall q :: q in levels ==> q == p || q in rest;
      best := p;
    } else {
      assert |rest| < |levels| by {
        assert rest.Keys == levels.Keys - {p};
      }
      best := BestExists(side, rest);
      assert forall q :: q in levels ==> q == p || q in rest;
      if Better(side, p, best) { best := p; }
    }
  }

  /**
    Moving the window to the best bid keeps every level that fits at its price and quantity, always
    keeps the best bid, and keeps an ask exactly when its distance from the bid fits the window.
   */
  lemma RebaseKeeps(book: Book, bid: int, ask: int)
    requires WellFormed(book) && IsBest(Bid, book.bids, bid) && IsBest(Ask, book.asks, ask)
    ensures var after := ApplyOp(book, Rebase(bid));
      && WellFormed(after)
      && (forall p :: p in after.bids <==> p in book.bids && InWindow(bid, book.depth, p))
      && (forall p :: p in after.asks <==> p in book.asks && InWindow(bid, book.depth, p))
      && (forall p :: p in after.bids ==> after.bids[p] == book.bids[p])
      && (forall p :: p in after.asks ==> after.asks[p] == book.asks[p])
      && IsBest(Bid, after.bids, bid)
      && (IsBest(Ask, after.asks, ask) <==> -(book.depth / 2) <= ask - bid < book.depth - book.depth / 2)
      && (ask > bid ==> (ask in after.asks <==> ask - bid < book.depth - book.depth / 2))
  {
  }

  lemma OneOp(book: Book, op: Op)
    ensures ApplyAll(book, [op]) == ApplyOp(book, op)
  {
    assert ApplyAll(book, []) == book;
  }

  lemma OneMoreSet(start: Book, done: seq<Op>, side: SideType, levels: seq<Level>, i: nat)
    requires i < |levels|
    ensures ApplyAll(start, done + SetOps(side, levels)[..i + 1]) ==
      ApplyOp(ApplyAll(start, done + SetOps(side, levels)[..i]), Set(side, levels[i].price, levels[i].quantity))
  {
    var ops := done + SetOps(side, levels)[..i + 1];
    assert ops[..|ops| - 1] == done + SetOps(side, levels)[..i];
    assert ops[|ops| - 1] == Set(side, levels[i].price, levels[i].quantity);
  }

  lemma MaybeRebaseIs(book: Book, delta: real)
    ensures !NeedsRebase(book, delta) ==> AfterMaybeRebase(book, delta) == book
    ensures NeedsRebase(book, delta) ==>
      exists bid :: IsBest(Bid, book.bids, bid) && AfterMaybeRebase(book, delta) == ApplyOp(book, Rebase(bid))
  {
    if NeedsRebase(book, delta) {
      var bid :| IsBest(Bid, book.bids, bid) && MaybeRebaseOps(book, delta) == [Rebase(bid)];
      OneOp(book, Rebase(bid));
    }
  }

  /** The window in numbers: half the depth below the base, and the rest from the base on. */
  predicate Covers(base: int, depth: nat, price: int) {
    base - depth / 2 <= price < base - depth / 2 + depth
  }

  /** The best bid is the highest price, the best ask the lowest. */
  lemma BestIs(levels: Levels, price: int)
    ensures IsBest(Bid, levels, price) <==> price in levels && forall p :: p in levels ==> p <= price
    ensures IsBest(Ask, levels, price) <==> price in levels && forall p :: p in levels ==> p >= price
  {
  }

  /** The price is in the window, and some price outside is at most the delta and one tick away. */
  ghost predicate NearTheEdge(base: int, depth: nat, price: int, delta: real) {
    && Covers(base, depth, price)
    && exists p :: !Covers(base, depth, p) && (p - price) as real <= delta + 1.0 && (price - p) as real <= delta + 1.0
  }

  /** A price is in the trigger zone when it is in the window and moving by the delta and one tick can leave the window. */
  lemma TriggerZoneIs(base: int, depth: nat, price: int, delta: real)
    ensures InTriggerZone(base, depth, price, delta) <==> NearTheEdge(base, depth, price, delta)
  {
    var below, above := base - depth / 2 - 1, base - depth / 2 + depth;
    assert !Covers(base, depth, below) && !Covers(base, depth, above);
    if Covers(base, depth, price) {
      if p :| !Covers(base, depth, p) && (p - price) as real <= delta + 1.0 && (price - p) as real <= delta + 1.0 {
        assert p <= below || p >= above;
      }
    }
  }

  /** A rebase is due exactly when both sides have levels and the highest bid or the lowest ask is near the edge. */
  lemma RebaseIsDue(book: Book, delta: real)
    ensures NeedsRebase(book, delta) <==>
      exists bid, ask ::
        && bid in book.bids && (forall p :: p in book.bids ==> p <= bid)
        && ask in book.asks && (forall p :: p in book.asks ==> p >= ask)
        && (NearTheEdge(book.base, book.depth, bid, delta) || NearTheEdge(book.base, book.depth, ask, delta))
  {
    if NeedsRebase(book, delta) {
      var bid, ask :| IsBest(Bid, book.bids, bid) && IsBest(Ask, book.asks, ask)
        && (InTriggerZone(book.base, book.depth, bid, delta) || InTriggerZone(book.base, book.depth, ask, delta));
      BestIs(book.bids, bid);
      BestIs(book.asks, ask);
      TriggerZoneIs(book.base, book.depth, bid, delta);
      TriggerZoneIs(book.base, book.depth, ask, delta);
    }
    if bid, ask :|
      && bid in book.bids && (forall p :: p in book.bids ==> p <= bid)
      && ask in book.asks && (forall p :: p in book.asks ==> p >= ask)
      && (NearTheEdge(book.base, book.depth, bid, delta) || NearTheEdge(book.base, book.depth, ask, delta))
    {
      BestIs(book.bids, bid);
      BestIs(book.asks, ask);
      TriggerZoneIs(book.base, book.depth, bid, delta);
      TriggerZoneIs(book.base, book.depth, ask, delta);
    }
  }

  /**
    What the test at the end of a write does: when due, and only then, the best bid becomes the base, and exactly the
    levels in the window around it stay.
   */
  lemma RebaseResult(book: Book, delta: real)
    requires WellFormed(book)
    ensures var after := AfterMaybeRebase(book, delta);
      && (!NeedsRebase(book, delta) ==> after == book)
      && (NeedsRebase(book, delta) ==>
           && after.depth == book.depth && after.base in book.bids && (forall p :: p in book.bids ==> p <= after.base)
           && (forall p, q :: Holds(after.bids, p, q) <==> Holds(book.bids, p, q) && Covers(after.base, book.depth, p))
           && (forall p, q :: Holds(after.asks, p, q) <==> Holds(book.asks, p, q) && Covers(after.base, book.depth, p)))
  {
    MaybeRebaseIs(book, delta);
  }

  /** A second rebase changes nothing. */
  lemma RebaseTwice(book: Book, delta: real)
    requires WellFormed(book)
    ensures var once := AfterMaybeRebase(book, delta); AfterMaybeRebase(once, delta) == once
  {
    var once := AfterMaybeRebase(book, delta);
    MaybeRebaseIs(book, delta);
    MaybeRebaseIs(once, delta);
    if NeedsRebase(book, delta) && NeedsRebase(once, delta) {
      var bid :| IsBest(Bid, book.bids, bid) && once == ApplyOp(book, Rebase(bid));
      var ask := BestExists(Ask, book.asks);
      RebaseKeeps(book, bid, ask);
      BestIsUnique(Bid, once.bids, bid);
      assert ApplyOp(once, Rebase(bid)) == once by {
        assert Rebased(once.bids, bid, book.depth) == once.bids;
        assert Rebased(once.asks, bid, book.depth) == once.asks;
      }
    }
  }

  // ---------------------------------------------------------------- no phantom levels over whole runs

  function BaseAfter(base: int, ops: seq<Op>): int {
    if ops == [] then base
    else if ops[|ops| - 1].Rebase? then ops[|ops| - 1].base
    else BaseAfter(base, ops[..|ops| - 1])
  }

  /** The plain map of one side: the last positive quantity written at each price since the last reset. */
  function PlainMap(ops: seq<Op>, side: SideType): Levels {
    if ops == [] then map[]
    else
      var before := PlainMap(ops[..|ops| - 1], side);
      match ops[|ops| - 1]
      case Reset => map[]
      case Set(s, p, q) => if s != side then before else if q > 0.0 then before[p := q] else before - {p}
      case Rebase(_) => before
  }

  predicate Holds(levels: Levels, price: int, quantity: real) {
    price in levels && levels[price] == quantity
  }

  predicate Touches(op: Op, side: SideType, price: int) {
    op.Reset? || (op.Set? && op.side == side && op.price == price)
  }

  /** The number of operations up to and including the last one that wrote the price, or 0. */
  function LastWrite(ops: seq<Op>, side: SideType, price: int): (n: nat)
    ensures n <= |ops|
    ensures n > 0 ==> Touches(ops[n - 1], side, price)
    ensures forall i :: n <= i < |ops| ==> !Touches(ops[i], side, price)
  {
    if ops == [] then 0
    else if Touches(ops[|ops| - 1], side, price) then |ops|
    else LastWrite(ops[..|ops| - 1], side, price)
  }

  /** The price was in the window after each operation from the n-th on. */
  ghost predicate InsideSince(base: int, depth: nat, ops: seq<Op>, price: int, n: nat) {
    forall i {:trigger BaseAfter(base, ops[..i])} :: n <= i <= |ops| ==> InWindow(BaseAfter(base, ops[..i]), depth, price)
  }

  lemma {:induction false} BaseOfRun(book: Book, ops: seq<Op>)
    ensures ApplyAll(book, ops).base == BaseAfter(book.base, ops) && ApplyAll(book, ops).depth == book.depth
  {
    if ops != [] {
      BaseOfRun(book, ops[..|ops| - 1]);
    }
  }

  lemma InsideSinceSnoc(base: int, depth: nat, ops: seq<Op>, price: int, n: nat)
    requires ops != [] && n <= |ops|
    ensures InsideSince(base, depth, ops, price, n) <==>
      (n < |ops| ==> InsideSince(base, depth, ops[..|ops| - 1], price, n)) && InWindow(BaseAfter(base, ops), depth, price)
  {
    var before := ops[..|ops| - 1];
    assert forall i :: 0 <= i < |ops| ==> before[..i] == ops[..i];
    assert ops[..|ops|] == ops;
    if InsideSince(base, depth, ops, price, n) {
      forall i | n <= i <= |before|
        ensures InWindow(BaseAfter(base, before[..i]), depth, price)
      {
        assert BaseAfter(base, ops[..i]) == BaseAfter(base, before[..i]);
      }
      assert InWindow(BaseAfter(base, ops[..|ops|]), depth, price);
    }
  }

  /** At every point of a run each level is positive and inside the window. */
  lemma {:induction false} RunWellFormed(base: int, depth: nat, ops: seq<Op>)
    ensures WellFormed(ApplyAll(Book(base, depth, map[], map[]), ops))
  {
    if ops != [] {
      RunWellFormed(base, depth, ops[..|ops| - 1]);
      OpKeepsWellFormed(ApplyAll(Book(base, depth, map[], map[]), ops[..|ops| - 1]), ops[|ops| - 1]);
    }
  }

  lemma OpKeepsWellFormed(book: Book, op: Op)
    requires WellFormed(book)
    ensures WellFormed(ApplyOp(book, op))
  {
  }

  /**
    No phantom levels: after any run on an empty book a side holds a quantity at a price exactly when
    the plain map holds it and the price has stayed inside the window since it was written.
   */
  lemma {:induction false} NoPhantomLevels(base: int, depth: nat, ops: seq<Op>, side: SideType, price: int, quantity: real)
    ensures Holds(SideOf(ApplyAll(Book(base, depth, map[], map[]), ops), side), price, quantity) <==>
      (Holds(PlainMap(ops, side), price, quantity)
       && InsideSince(base, depth, ops, price, LastWrite(ops, side, price)))
  {
    if ops != [] {
      var book := Book(base, depth, map[], map[]);
      var before := ops[..|ops| - 1];
      NoPhantomLevels(base, depth, before, side, price, quantity);
      BaseOfRun(book, before);
      BaseOfRun(book, ops);
      InsideSinceSnoc(base, depth, ops, price, LastWrite(ops, side, price));
      WritesAreNeeded(before, side, price);
      RunWellFormed(base, depth, before);
      assert price in SideOf(ApplyAll(book, before), side) ==> InWindow(BaseAfter(base, before), depth, price);
      if InsideSince(base, depth, before, price, LastWrite(before, side, price)) {
        InsideNow(base, depth, before, price, LastWrite(before, side, price));
      }
    }
  }

  lemma InsideNow(base: int, depth: nat, ops: seq<Op>, price: int, n: nat)
    requires InsideSince(base, depth, ops, price, n) && n <= |ops|
    ensures InWindow(BaseAfter(base, ops), depth, price)
  {
    assert ops[..|ops|] == ops;
  }

  lemma {:induction false} WritesAreNeeded(ops: seq<Op>, side: SideType, price: int)
    ensures price in PlainMap(ops, side) ==> LastWrite(ops, side, price) > 0
  {
    if ops != [] {
      WritesAreNeeded(ops[..|ops| - 1], side, price);
    }
  }

  // ---------------------------------------------------------------- runs of the book object

  /** One call a client makes: each public member that changes the book. */
  datatype Command =
    | Snapshot(bids: seq<Level>, asks: seq<Level>)
    | Change(side: SideType, updateType: UpdateType, price: int, quantity: real)
    | ChangeWithoutRebase(side: SideType, updateType: UpdateType, price: int, quantity: real)
    | RebaseIfDue
    | MoveTo(base: int)
    | ResetTo(base: int)
    | Empty
    | SetDelta(delta: real)

  function ChangeOp(side: SideType, updateType: UpdateType, price: int, quantity: real): Op {
    Set(side, price, if updateType.Remove? then 0.0 else quantity)
  }

  /** The operations a command makes itself, before any rebase that becomes due. */
  function CommandOps(command: Command): seq<Op> {
    match command
    case Snapshot(bids, asks) => SnapshotOps(bids, asks)
    case Change(side, updateType, price, quantity) => [ChangeOp(side, updateType, price, quantity)]
    case ChangeWithoutRebase(side, updateType, price, quantity) => [ChangeOp(side, updateType, price, quantity)]
    case RebaseIfDue => []
    case MoveTo(base) => [Rebase(base)]
    case ResetTo(base) => [Reset, Rebase(base)]
    case Empty => [Reset]
    case SetDelta(_) => []
  }

  /** The rebase with which a command ends, if it looks for one and one is due. */
  ghost function DueOps(book: Book, command: Command, delta: real): seq<Op> {
    if command.Snapshot? || command.Change? || command.RebaseIfDue? then MaybeRebaseOps(book, delta) else []
  }

  /** The rebase delta in force after the commands. */
  function DeltaAfter(delta: real, commands: seq<Command>): real {
    if commands == [] then delta
    else if commands[|commands| - 1].SetDelta? then commands[|commands| - 1].delta
    else DeltaAfter(delta, commands[..|commands| - 1])
  }

  /** The operations of a run: each command's own, followed by the rebase that becomes due. */
  ghost function RunOps(start: Book, commands: seq<Command>, delta: real): seq<Op> {
    if commands == [] then []
    else
      var before, last := commands[..|commands| - 1], commands[|commands| - 1];
      var written := RunOps(start, before, delta) + CommandOps(last);
      written + DueOps(ApplyAll(start, written), last, DeltaAfter(delta, before))
  }

  lemma {:induction false} ApplyAllConcat(book: Book, a: seq<Op>, b: seq<Op>)
    ensures ApplyAll(book, a + b) == ApplyAll(ApplyAll(book, a), b)
  {
    if b == [] {
      assert a + b == a;
    } else {
      ApplyAllConcat(book, a, b[..|b| - 1]);
      assert (a + b)[..|a + b| - 1] == a + b[..|b| - 1];
    }
  }

  lemma RunOpsNext(start: Book, commands: seq<Command>, delta: real, i: nat)
    requires i < |commands|
    ensures var written := ApplyAll(ApplyAll(start, RunOps(start, commands[..i], delta)), CommandOps(commands[i]));
      ApplyAll(start, RunOps(start, commands[..i + 1], delta)) ==
      ApplyAll(written, DueOps(written, commands[i], DeltaAfter(delta, commands[..i])))
    ensures DeltaAfter(delta, commands[..i + 1]) ==
      if commands[i].SetDelta? then commands[i].delta else DeltaAfter(delta, commands[..i])
  {
    assert commands[..i + 1][..i] == commands[..i];
    var done := RunOps(start, commands[..i], delta);
    var written := done + CommandOps(commands[i]);
    ApplyAllConcat(start, done, CommandOps(commands[i]));
    ApplyAllConcat(start, written, DueOps(ApplyAll(start, written), commands[i], DeltaAfter(delta, commands[..i])));
  }

  lemma TwoOps(book: Book, first: Op, second: Op)
    ensures ApplyAll(book, [first, second]) == ApplyOp(ApplyOp(book, first), second)
  {
    assert [first, second][..1] == [first];
    OneOp(book, first);
  }

  method RunCommand(book: OrderBook, command: Command)
    requires book.Valid()
    modifies book.bids, book.asks, book`rebaseDelta
    ensures book.Valid()
    ensures book.rebaseDelta == if command.SetDelta? then command.delta else old(book.rebaseDelta)
    ensures var written := ApplyAll(old(book.State()), CommandOps(command));
      book.State() == ApplyAll(written, DueOps(written, command, old(book.rebaseDelta)))
  {
    ghost var start := book.State();
    match command {
      case Snapshot(bids, asks) =>
        book.ApplySnapshot(bids, asks);
      case Change(side, updateType, price, quantity) =>
        OneOp(start, CommandOps(command)[0]);
        book.ApplyUpdate(side, updateType, price, quantity);
      case ChangeWithoutRebase(side, updateType, price, quantity) =>
        OneOp(start, CommandOps(command)[0]);
        book.ApplyUpdateWithoutRebase(side, updateType, price, quantity);
      case RebaseIfDue =>
        book.MaybeRebase();
      case MoveTo(base) =>
        OneOp(start, Rebase(base));
        book.MoveToNewBasePrice(base);
      case ResetTo(base) =>
        TwoOps(start, Reset, Rebase(base));
        book.ResetBasePrice(base);
      case Empty =>
        OneOp(start, Reset);
        book.Reset();
      case SetDelta(delta) =>
        book.SetRebaseDelta(delta);
    }
  }

  /** Any run of commands leaves the book object in the state the operations of the run describe. */
  method RunCommands(book: OrderBook, commands: seq<Command>)
    requires book.Valid()
    modifies book.bids, book.asks, book`rebaseDelta
    ensures book.Valid() && book.rebaseDelta == DeltaAfter(old(book.rebaseDelta), commands)
    ensures book.State() == ApplyAll(old(book.State()), RunOps(old(book.State()), commands, old(book.rebaseDelta)))
  {
    ghost var start, delta := book.State(), book.rebaseDelta;
    var i := 0;
    while i < |commands|
      invariant 0 <= i <= |commands|
      invariant book.Valid() && book.rebaseDelta == DeltaAfter(delta, commands[..i])
      invariant book.State() == ApplyAll(start, RunOps(start, commands[..i], delta))
    {
      RunOpsNext(start, commands, delta, i);
      RunCommand(book, commands[i]);
      i := i + 1;
    }
    assert commands[..|commands|] == commands;
  }

  /** What a run of commands writes, with no regard to windows and rebases. */
  function Written(commands: seq<Command>): seq<Op> {
    if commands == [] then []
    else Written(commands[..|commands| - 1]) + CommandOps(commands[|commands| - 1])
  }

  lemma {:induction false} SameMapSoFar(a: seq<Op>, b: seq<Op>, more: seq<Op>, side: SideType)
    requires PlainMap(a, side) == PlainMap(b, side)
    ensures PlainMap(a + more, side) == PlainMap(b + more, side)
  {
    if more == [] {
      assert a + more == a && b + more == b;
    } else {
      var less := more[..|more| - 1];
      SameMapSoFar(a, b, less, side);
      assert (a + more)[..|a + more| - 1] == a + less && (b + more)[..|b + more| - 1] == b + less;
    }
  }

  lemma DueWritesNothing(ops: seq<Op>, book: Book, command: Command, delta: real, side: SideType)
    ensures PlainMap(ops + DueOps(book, command, delta), side) == PlainMap(ops, side)
  {
    var rebase := DueOps(book, command, delta);
    if rebase == [] {
      assert ops + rebase == ops;
    } else {
      assert (ops + rebase)[..|ops + rebase| - 1] == ops;
    }
  }

  /** The rebases of a run leave no trace in the plain map: it is what the commands themselves wrote. */
  lemma {:induction false} PlainMapIsWritten(start: Book, commands: seq<Command>, delta: real, side: SideType)
    ensures PlainMap(RunOps(start, commands, delta), side) == PlainMap(Written(commands), side)
  {
    if commands != [] {
      var before, last := commands[..|commands| - 1], commands[|commands| - 1];
      var done, ops := RunOps(start, before, delta), CommandOps(last);
      PlainMapIsWritten(start, before, delta, side);
      SameMapSoFar(done, Written(before), ops, side);
      DueWritesNothing(done + ops, ApplyAll(start, done + ops), last, DeltaAfter(delta, before), side);
    }
  }

  // ---------------------------------------------------------------- what the writes mean

  /** The last entry of the list for this price has this quantity. */
  ghost predicate LastEntry(levels: seq<Level>, price: int, quantity: real) {
    exists i :: 0 <= i < |levels| && levels[i] == Level(price, quantity)
      && forall j :: i < j < |levels| ==> levels[j].price != price
  }

  /** What a side holds of a list of levels that was written into it while it was empty. */
  ghost predicate HoldsList(levels: Levels, base: int, depth: nat, list: seq<Level>) {
    forall p, q :: Holds(levels, p, q) <==> Covers(base, depth, p) && q > 0.0 && LastEntry(list, p, q)
  }

  /** The book after the writes of a snapshot. */
  ghost predicate Replaces(book: Book, bids: seq<Level>, asks: seq<Level>, after: Book) {
    && after.base == book.base && after.depth == book.depth
    && HoldsList(after.bids, book.base, book.depth, bids) && HoldsList(after.asks, book.base, book.depth, asks)
  }

  lemma LastEntryGrows(list: seq<Level>, last: Level, price: int, quantity: real)
    ensures LastEntry(list + [last], price, quantity) <==>
      if last.price == price then last.quantity == quantity else LastEntry(list, price, quantity)
  {
    var longer := list + [last];
    if last.price == price {
      assert longer[|list|] == last;
      if LastEntry(longer, price, quantity) {
        var i :| 0 <= i < |longer| && longer[i] == Level(price, quantity)
          && forall j :: i < j < |longer| ==> longer[j].price != price;
        assert i == |list|;
      }
    } else {
      assert forall j :: 0 <= j < |list| ==> longer[j] == list[j];
      if LastEntry(list, price, quantity) {
        var i :| 0 <= i < |list| && list[i] == Level(price, quantity) && forall j :: i < j < |list| ==> list[j].price != price;
        assert longer[i] == Level(price, quantity);
      }
      if LastEntry(longer, price, quantity) {
        var i :| 0 <= i < |longer| && longer[i] == Level(price, quantity)
          && forall j :: i < j < |longer| ==> longer[j].price != price;
        assert list[i] == Level(price, quantity);
      }
    }
  }

  lemma ListGrows(levels: Levels, base: int, depth: nat, list: seq<Level>, last: Level)
    requires HoldsList(levels, base, depth, list)
    ensures HoldsList(SetLevels(levels, base, depth, last.price, last.quantity), base, depth, list + [last])
  {
    var after := SetLevels(levels, base, depth, last.price, last.quantity);
    forall p, q
      ensures Holds(after, p, q) <==> Covers(base, depth, p) && q > 0.0 && LastEntry(list + [last], p, q)
    {
      LastEntryGrows(list, last, p, q);
      assert Holds(levels, p, q) <==> Covers(base, depth, p) && q > 0.0 && LastEntry(list, p, q);
    }
  }

  /** Writing a list into a side adds its last entries and leaves the other side alone. */
  lemma {:induction false} ListWritten(book: Book, side: SideType, list: seq<Level>)
    requires SideOf(book, side) == map[]
    ensures var after := ApplyAll(book, SetOps(side, list));
      && HoldsList(SideOf(after, side), book.base, book.depth, list)
      && after.base == book.base && after.depth == book.depth
      && (side.Bid? ==> after.asks == book.asks) && (side.Ask? ==> after.bids == book.bids)
  {
    if list == [] {
      assert SetOps(side, list) == [];
    } else {
      var before, last := list[..|list| - 1], list[|list| - 1];
      ListWritten(book, side, before);
      assert list == before + [last];
      assert SetOps(side, list)[..|list| - 1] == SetOps(side, before);
      var made := ApplyAll(book, SetOps(side, before));
      assert ApplyAll(book, SetOps(side, list)) == ApplyOp(made, Set(side, last.price, last.quantity));
      ListGrows(SideOf(made, side), book.base, book.depth, before, last);
    }
  }

  /**
    A snapshot replaces the book, whatever it held: each side then holds a quantity at a price exactly when the price
    is in the window, the quantity is positive, and it is the last one the snapshot lists for that price on that side.
   */
  lemma SnapshotReplaces(book: Book, bids: seq<Level>, asks: seq<Level>)
    ensures Replaces(book, bids, asks, ApplyAll(book, SnapshotOps(bids, asks)))
  {
    var empty := book.(bids := map[], asks := map[]);
    OneOp(book, Reset);
    ListWritten(empty, Bid, bids);
    ListWritten(ApplyAll(empty, SetOps(Bid, bids)), Ask, asks);
    ApplyAllConcat(book, [Reset], SetOps(Bid, bids));
    ApplyAllConcat(book, [Reset] + SetOps(Bid, bids), SetOps(Ask, asks));
  }

  /** A change touches one price on one side: it sets a positive quantity inside the window, and removes the level otherwise. */
  lemma ChangeSets(book: Book, side: SideType, updateType: UpdateType, price: int, quantity: real)
    ensures var after := ApplyOp(book, ChangeOp(side, updateType, price, quantity));
      && after.base == book.base && after.depth == book.depth
      && (side.Bid? ==> after.asks == book.asks) && (side.Ask? ==> after.bids == book.bids)
      && (forall p, q :: p != price ==> (Holds(SideOf(after, side), p, q) <==> Holds(SideOf(book, side), p, q)))
      && (!Covers(book.base, book.depth, price) ==> after == book)
      && (Covers(book.base, book.depth, price) ==> forall q ::
           Holds(SideOf(after, side), price, q) <==> !updateType.Remove? && q == quantity && quantity > 0.0)
  {
    if !Covers(book.base, book.depth, price) {
      assert !InWindow(book.base, book.depth, price);
    }
  }

  /** The quantity that the commands have last written at a price, if the last write was positive. */
  ghost predicate LastWritten(commands: seq<Command>, side: SideType, price: int, quantity: real) {
    commands != [] &&
    var before := commands[..|commands| - 1];
    match commands[|commands| - 1]
    case Snapshot(bids, asks) => quantity > 0.0 && LastEntry(if side.Bid? then bids else asks, price, quantity)
    case Change(s, u, p, q) =>
      if s == side && p == price then !u.Remove? && q == quantity && q > 0.0 else LastWritten(before, side, price, quantity)
    case ChangeWithoutRebase(s, u, p, q) =>
      if s == side && p == price then !u.Remove? && q == quantity && q > 0.0 else LastWritten(before, side, price, quantity)
    case ResetTo(_) => false
    case Empty => false
    case _ => LastWritten(before, side, price, quantity)
  }

  lemma {:induction false} ListIsLastEntry(ops: seq<Op>, side: SideType, list: seq<Level>, price: int, quantity: real)
    ensures Holds(PlainMap(ops + SetOps(side, list), side), price, quantity) <==>
      if exists i :: 0 <= i < |list| && list[i].price == price then quantity > 0.0 && LastEntry(list, price, quantity)
      else Holds(PlainMap(ops, side), price, quantity)
  {
    if list == [] {
      assert ops + SetOps(side, list) == ops;
    } else {
      var before, last := list[..|list| - 1], list[|list| - 1];
      ListIsLastEntry(ops, side, before, price, quantity);
      assert list == before + [last];
      var all := ops + SetOps(side, list);
      assert all[..|all| - 1] == ops + SetOps(side, before);
      LastEntryGrows(before, last, price, quantity);
      if exists i :: 0 <= i < |before| && before[i].price == price {
        var i :| 0 <= i < |before| && before[i].price == price;
        assert list[i].price == price;
      }
      assert list[|list| - 1] == last;
    }
  }

  lemma {:induction false} OtherSideKept(ops: seq<Op>, side: SideType, other: SideType, list: seq<Level>)
    requires side != other
    ensures PlainMap(ops + SetOps(other, list), side) == PlainMap(ops, side)
  {
    if list == [] {
      assert ops + SetOps(other, list) == ops;
    } else {
      var before := list[..|list| - 1];
      OtherSideKept(ops, side, other, before);
      var all := ops + SetOps(other, list);
      assert all[..|all| - 1] == ops + SetOps(other, before);
    }
  }

  lemma SnapshotInPlainMap(ops: seq<Op>, side: SideType, bids: seq<Level>, asks: seq<Level>, price: int, quantity: real)
    ensures Holds(PlainMap(ops + SnapshotOps(bids, asks), side), price, quantity) <==>
      quantity > 0.0 && LastEntry(if side.Bid? then bids else asks, price, quantity)
  {
    var emptied := ops + [Reset];
    assert emptied[..|ops|] == ops;
    assert PlainMap(emptied, side) == map[];
    assert ops + SnapshotOps(bids, asks) == emptied + SetOps(Bid, bids) + SetOps(Ask, asks);
    if side.Bid? {
      OtherSideKept(emptied + SetOps(Bid, bids), Bid, Ask, asks);
      ListIsLastEntry(emptied, Bid, bids, price, quantity);
    } else {
      OtherSideKept(emptied, Ask, Bid, bids);
      ListIsLastEntry(emptied + SetOps(Bid, bids), Ask, asks, price, quantity);
    }
  }

  /** The plain map holds what the commands have last written. */
  lemma {:induction false} PlainMapIsLastWritten(commands: seq<Command>, side: SideType, price: int, quantity: real)
    ensures Holds(PlainMap(Written(commands), side), price, quantity) <==> LastWritten(commands, side, price, quantity)
  {
    if commands != [] {
      var before, last := commands[..|commands| - 1], commands[|commands| - 1];
      var ops := Written(before);
      PlainMapIsLastWritten(before, side, price, quantity);
      match last {
        case Snapshot(bids, asks) => SnapshotInPlainMap(ops, side, bids, asks, price, quantity);
        case Change(_, _, _, _) => assert (ops + CommandOps(last))[..|ops|] == ops;
        case ChangeWithoutRebase(_, _, _, _) => assert (ops + CommandOps(last))[..|ops|] == ops;
        case MoveTo(_) => assert (ops + CommandOps(last))[..|ops|] == ops;
        case Empty => assert (ops + CommandOps(last))[..|ops|] == ops;
        case ResetTo(base) =>
          assert (ops + [Reset, Rebase(base)])[..|ops| + 1] == ops + [Reset];
          assert (ops + [Reset])[..|ops|] == ops;
        case RebaseIfDue => assert ops + [] == ops;
        case SetDelta(_) => assert ops + [] == ops;
      }
    }
  }

  /**
    No phantom levels in the object: a new book that went through any commands holds a quantity at a price exactly
    when the commands have last written it there and the price has stayed inside the window since.
   */
  method BookAfter(basePrice: int, depth: nat, delta: real, commands: seq<Command>) returns (book: OrderBook)
    requires 0 < depth < INVALID_INDEX
    ensures fresh(book) && book.Valid()
    ensures forall side, price, quantity :: Holds(SideOf(book.State(), side), price, quantity) <==>
      && LastWritten(commands, side, price, quantity)
      && var ops := RunOps(Book(basePrice, depth, map[], map[]), commands, delta);
         InsideSince(basePrice, depth, ops, price, LastWrite(ops, side, price))
  {
    book := new OrderBook(basePrice, depth, delta);
    RunCommands(book, commands);
    ghost var ops := RunOps(Book(basePrice, depth, map[], map[]), commands, delta);
    forall side, price, quantity
      ensures Holds(SideOf(book.State(), side), price, quantity) <==>
        LastWritten(commands, side, price, quantity)
        && InsideSince(basePrice, depth, ops, price, LastWrite(ops, side, price))
    {
      NoPhantomLevels(basePrice, depth, ops, side, price, quantity);
      PlainMapIsWritten(Book(basePrice, depth, map[], map[]), commands, delta, side);
      PlainMapIsLastWritten(commands, side, price, quantity);
    }
  }

  // ---------------------------------------------------------------- snapshots reproduce the book

  /** A top-of-book listing that has room for every level, written into an empty side, gives the side back. */
  lemma SnapshotReproducesSide(side: SideType, levels: Levels, top: seq<Level>, count: nat, base: int, depth: nat)
    requires AllInside(levels, base, depth) && IsTopOf(side, top, levels, count)
    requires |top| < count || (forall p :: p in levels ==> exists i :: 0 <= i < |top| && top[i].price == p)
    ensures SideOf(ApplyAll(Book(base, depth, map[], map[]), SetOps(side, top)), side) == levels
  {
    var ops := SetOps(side, top);
    assert ops[..|top|] == ops;
    ListedLevels(side, levels, top, |top|, base, depth);
    var made := SideOf(ApplyAll(Book(base, depth, map[], map[]), ops), side);
    assert forall p :: p in levels ==> exists i :: 0 <= i < |top| && top[i].price == p;
    SameLevels(made, levels);
  }

  lemma SameLevels(a: Levels, b: Levels)
    requires forall p :: p in a <==> p in b
    requires forall p :: p in a ==> p in b && a[p] == b[p]
    ensures a == b
  {
    forall p
      ensures p in a <==> p in b
      ensures p in a ==> a[p] == b[p]
    {
    }
  }

  lemma {:induction false} ListedLevels(side: SideType, levels: Levels, top: seq<Level>, n: nat, base: int, depth: nat)
    requires n <= |top| && AllInside(levels, base, depth)
    requires forall i :: 0 <= i < |top| ==> top[i].price in levels && levels[top[i].price] == top[i].quantity
    ensures var made := ApplyAll(Book(base, depth, map[], map[]), SetOps(side, top)[..n]);
      && made.base == base && made.depth == depth
      && (forall p :: p in SideOf(made, side) <==> exists i :: 0 <= i < n && top[i].price == p)
      && (forall p :: p in SideOf(made, side) ==> p in levels && SideOf(made, side)[p] == levels[p])
  {
    var ops := SetOps(side, top)[..n];
    if n > 0 {
      assert ops[..n - 1] == SetOps(side, top)[..n - 1];
      ListedLevels(side, levels, top, n - 1, base, depth);
    }
  }
}
