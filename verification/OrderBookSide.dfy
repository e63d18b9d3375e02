/**
  One side of the order book: a window of price levels around a base price, a bitmap of the
  non-empty ones in 64-bit words, and the cached index of the best one. Prices are whole ticks.
 */
module OrderBookSides {
  import opened Bits

  datatype SideType = Bid | Ask

  /** The positive levels of one side, by price. */
  type Levels = map<int, real>

  const WORD_BITS: nat := 64
  const INVALID_INDEX: nat := 0xFFFF_FFFF_FFFF_FFFF

  // ---------------------------------------------------------------- specification on plain maps

  function CenterIndex(depth: nat): nat {
    depth / 2
  }

  /** The price has an index between 0 and depth - 1. */
  predicate InWindow(base: int, depth: nat, price: int) {
    0 <= CenterIndex(depth) + price - base < depth
  }

  /** What writing a quantity at a price does to the positive levels. */
  function SetLevels(levels: Levels, base: int, depth: nat, price: int, quantity: real): Levels {
    if !InWindow(base, depth, price) then levels
    else if quantity > 0.0 then levels[price := quantity]
    else levels - {price}
  }

  /** What moving the window does to the positive levels. */
  function Rebased(levels: Levels, base: int, depth: nat): Levels {
    map p | p in levels && InWindow(base, depth, p) :: levels[p]
  }

  predicate Better(side: SideType, p: int, q: int) {
    if side.Bid? then p > q else p < q
  }

  /** The price is a level and no level is better. */
  ghost predicate IsBest(side: SideType, levels: Levels, price: int) {
    price in levels && (forall p :: p in levels ==> !Better(side, p, price))
  }

  // ---------------------------------------------------------------- representation

  predicate Positive(levels: seq<real>, index: int) {
    0 <= index < |levels| && levels[index] > 0.0
  }

  function IndexOf(base: int, center: nat, price: int): int {
    center + (price - base)
  }

  /** The positive levels by price, read off the array. */
  function LevelMap(levels: seq<real>, base: int, center: nat): Levels {
    map p {:trigger Positive(levels, IndexOf(base, center, p))} |
      base - center <= p < base - center + |levels| && Positive(levels, IndexOf(base, center, p))
      :: levels[IndexOf(base, center, p)]
  }

  /** Bit k of word w is set exactly when it stands for a positive level. */
  ghost predicate BitmapOk(words: seq<nat>, levels: seq<real>) {
    forall w: nat, k: nat :: w < |words| ==>
      (Bit(words[w], k) <==> k < WORD_BITS && Positive(levels, w * WORD_BITS + k))
  }

  /** The cached top is the best positive index, or invalid when there is none. */
  ghost predicate TopOk(side: SideType, levels: seq<real>, top: nat) {
    if top == INVALID_INDEX then forall i :: !Positive(levels, i)
    else Positive(levels, top) && (forall i :: Positive(levels, i) ==> !Better(side, i, top))
  }

  class OrderBookSide {
    const side: SideType
    var basePrice: int
    const centerIndex: nat
    var levels: seq<real>
    var nonEmptyWords: seq<nat>
    var topIndex: nat

    ghost predicate Shape()
      reads this
    {
      && 0 < |levels| < INVALID_INDEX
      && |nonEmptyWords| == (|levels| + WORD_BITS - 1) / WORD_BITS
      && centerIndex == CenterIndex(|levels|)
    }

    ghost predicate Valid()
      reads this
    {
      && Shape()
      && BitmapOk(nonEmptyWords, levels)
      && TopOk(side, levels, topIndex)
    }

    ghost function Depth(): nat
      reads this
    {
      |levels|
    }

    /** The positive levels by price. */
    ghost function Contents(): Levels
      reads this
    {
      LevelMap(levels, basePrice, centerIndex)
    }

    constructor (side: SideType, basePrice: int, depth: nat)
      requires 0 < depth < INVALID_INDEX
      ensures Valid() && Contents() == map[]
      ensures this.side == side && this.basePrice == basePrice && Depth() == depth
    {
      this.side := side;
      this.basePrice := basePrice;
      this.centerIndex := depth / 2;
      this.levels := seq(depth, _ => 0.0);
      this.nonEmptyWords := seq((depth + WORD_BITS - 1) / WORD_BITS, _ => 0);
      this.topIndex := INVALID_INDEX;
      new;
      forall w: nat, k: nat | w < |nonEmptyWords|
        ensures !Bit(nonEmptyWords[w], k)
      {
        ZeroHasNoBit(k);
      }
    }

    method Clear()
      requires Shape()
      modifies this
      ensures Valid() && Contents() == map[]
      ensures basePrice == old(basePrice) && Depth() == old(Depth())
    {
      levels := seq(|levels|, _ => 0.0);
      nonEmptyWords := seq(|nonEmptyWords|, _ => 0);
      topIndex := INVALID_INDEX;
      forall w: nat, k: nat | w < |nonEmptyWords|
        ensures !Bit(nonEmptyWords[w], k)
      {
        ZeroHasNoBit(k);
      }
    }

    function PriceToIndex(price: int): int
      reads this
    {
      IndexOf(basePrice, centerIndex, price)
    }

    function IndexToPrice(index: int): int
      reads this
    {
      basePrice + (index - centerIndex)
    }

    method SetLevel(price: int, quantity: real)
      requires Valid()
      modifies this
      ensures Valid()
      ensures basePrice == old(basePrice) && Depth() == old(Depth())
      ensures Contents() == SetLevels(old(Contents()), basePrice, Depth(), price, quantity)
    {
      var index := PriceToIndex(price);
      if index < 0 || index >= |levels| {
        return;
      }
      levels := levels[index := quantity];
      ghost var before := old(levels);
      if quantity > 0.0 {
        SetNonEmpty(index);
        BitmapSet(old(nonEmptyWords), nonEmptyWords, before, levels, index);
        if IsBetterTop(index) {
          topIndex := index;
        }
      } else {
        ClearNonEmpty(index);
        BitmapCleared(old(nonEmptyWords), nonEmptyWords, before, levels, index);
        if index == topIndex {
          RebuildTopFromBitmap();
        }
      }
      assert forall i :: i != index ==> (Positive(levels, i) <==> Positive(before, i));
      LevelMapSet(before, basePrice, centerIndex, price, quantity);
    }

    predicate IsBetterTop(index: nat)
      reads this
    {
      if topIndex == INVALID_INDEX then true else Better(side, index, topIndex)
    }

    method SetNonEmpty(index: nat)
      requires index / WORD_BITS < |nonEmptyWords|
      modifies this`nonEmptyWords
      ensures nonEmptyWords == old(nonEmptyWords)[index / WORD_BITS :=
        Or(old(nonEmptyWords)[index / WORD_BITS], Pow2(index % WORD_BITS))]
    {
      var wordIndex := index / WORD_BITS;
      var bitIndex := index % WORD_BITS;
      nonEmptyWords := nonEmptyWords[wordIndex := Or(nonEmptyWords[wordIndex], Pow2(bitIndex))];
    }

    method ClearNonEmpty(index: nat)
      requires index / WORD_BITS < |nonEmptyWords|
      modifies this`nonEmptyWords
      ensures nonEmptyWords == old(nonEmptyWords)[index / WORD_BITS :=
        AndNot(old(nonEmptyWords)[index / WORD_BITS], Pow2(index % WORD_BITS))]
    {
      var wordIndex := index / WORD_BITS;
      var bitIndex := index % WORD_BITS;
      nonEmptyWords := nonEmptyWords[wordIndex := AndNot(nonEmptyWords[wordIndex], Pow2(bitIndex))];
    }

    method RebuildTopFromBitmap()
      requires Shape() && BitmapOk(nonEmptyWords, levels)
      modifies this`topIndex
      ensures TopOk(side, levels, topIndex)
    {
      if side == Bid {
        RebuildBidTopFromBitmap();
      } else {
        RebuildAskTopFromBitmap();
      }
    }

    method RebuildBidTopFromBitmap()
      requires Shape() && BitmapOk(nonEmptyWords, levels)
      modifies this`topIndex
      ensures TopOk(Bid, levels, topIndex)
    {
      topIndex := INVALID_INDEX;
      var wordPos := |nonEmptyWords|;
      while wordPos > 0
        invariant wordPos <= |nonEmptyWords| && topIndex == INVALID_INDEX
        invariant forall i :: Positive(levels, i) ==> i < wordPos * WORD_BITS
      {
        var wordIndex := wordPos - 1;
        var word := nonEmptyWords[wordIndex];
        if word != 0 {
          WordFits(nonEmptyWords, levels, wordIndex);
          var leadingZeros := WORD_BITS - BitLength(word);
          var highestBit := WORD_BITS - 1 - leadingZeros;
          var index := wordIndex * WORD_BITS + highestBit;
          HighestInWord(nonEmptyWords, levels, wordIndex);
          if index < |levels| {
            topIndex := index;
            return;
          }
        } else {
          EmptyWord(nonEmptyWords, levels, wordIndex);
        }
        wordPos := wordPos - 1;
      }
    }

    method RebuildAskTopFromBitmap()
      requires Shape() && BitmapOk(nonEmptyWords, levels)
      modifies this`topIndex
      ensures TopOk(Ask, levels, topIndex)
    {
      topIndex := INVALID_INDEX;
      var wordIndex := 0;
      while wordIndex < |nonEmptyWords|
        invariant wordIndex <= |nonEmptyWords| && topIndex == INVALID_INDEX
        invariant forall i :: Positive(levels, i) ==> i >= wordIndex * WORD_BITS
      {
        var word := nonEmptyWords[wordIndex];
        if word != 0 {
          var lowestBit := TrailingZeros(word);
          var index := wordIndex * WORD_BITS + lowestBit;
          LowestInWord(nonEmptyWords, levels, wordIndex);
          if index < |levels| {
            topIndex := index;
            return;
          }
        } else {
          EmptyWord(nonEmptyWords, levels, wordIndex);
        }
        wordIndex := wordIndex + 1;
      }
    }

    method ResetBasePrice(newBasePrice: int)
      requires Shape()
      modifies this
      ensures Valid() && Contents() == map[]
      ensures basePrice == newBasePrice && Depth() == old(Depth())
    {
      basePrice := newBasePrice;
      Clear();
    }

    method MoveToNewBasePrice(newBasePrice: int)
      requires Valid()
      modifies this
      ensures Valid()
      ensures basePrice == newBasePrice && Depth() == old(Depth())
      ensures Contents() == Rebased(old(Contents()), newBasePrice, Depth())
    {
      var newSide := new OrderBookSide(side, newBasePrice, |levels|);
      CopyLevels(newSide);
      basePrice, levels, nonEmptyWords, topIndex :=
        newSide.basePrice, newSide.levels, newSide.nonEmptyWords, newSide.topIndex;
    }

    /** The loop of MoveToNewBasePrice: every positive level is written into the new side. */
    method CopyLevels(newSide: OrderBookSide)
      requires Valid() && newSide != this && newSide.Valid()
      requires newSide.Depth() == Depth() && newSide.Contents() == map[]
      modifies newSide
      ensures newSide.Valid() && newSide.basePrice == old(newSide.basePrice) && newSide.Depth() == Depth()
      ensures newSide.Contents() == Rebased(Contents(), newSide.basePrice, Depth())
    {
      ghost var newBase := newSide.basePrice;
      var i := 0;
      while i < |levels|
        modifies newSide
        invariant 0 <= i <= |levels|
        invariant newSide.Valid() && newSide.basePrice == newBase && newSide.Depth() == |levels|
        invariant newSide.Contents() == Rebased(LevelMap(levels[..i], basePrice, centerIndex), newBase, |levels|)
      {
        ghost var before := newSide.Contents();
        var quantity := levels[i];
        if quantity > 0.0 {
          newSide.SetLevel(IndexToPrice(i), quantity);
        }
        LevelMoved(levels, basePrice, centerIndex, i, newBase, before, newSide.Contents());
        i := i + 1;
      }
      assert levels[..|levels|] == levels;
    }

    method GetQuantity(price: int) returns (quantity: real)
      requires Valid()
      ensures if price in Contents() then quantity == Contents()[price] else quantity <= 0.0
    {
      var index := PriceToIndex(price);
      if index < 0 || index >= |levels| {
        return 0.0;
      }
      return levels[index];
    }

    predicate HasTop()
      reads this
    {
      topIndex != INVALID_INDEX
    }

    function TopPrice(): int
      reads this
    {
      if topIndex == INVALID_INDEX then 0 else IndexToPrice(topIndex)
    }

    function TopQuantity(): real
      requires topIndex == INVALID_INDEX || topIndex < |levels|
      reads this
    {
      if topIndex == INVALID_INDEX then 0.0 else levels[topIndex]
    }

    lemma IndexedLevel(index: nat)
      requires index < |levels|
      ensures levels[index] > 0.0 <==> IndexToPrice(index) in Contents()
      ensures levels[index] > 0.0 ==> Contents()[IndexToPrice(index)] == levels[index]
    {
      assert IndexOf(basePrice, centerIndex, IndexToPrice(index)) == index;
    }

    /** The cached top answers for the whole side. */
    lemma TopIsBest()
      requires Valid()
      ensures HasTop() <==> Contents() != map[]
      ensures HasTop() ==> IsBest(side, Contents(), TopPrice()) && TopQuantity() == Contents()[TopPrice()]
    {
      if HasTop() {
        assert PriceToIndex(TopPrice()) == topIndex;
        assert TopPrice() in Contents();
      } else {
        assert forall p :: p !in Contents();
      }
    }
  }

  // ---------------------------------------------------------------- level map facts

  lemma LevelMapSet(levels: seq<real>, base: int, center: nat, price: int, quantity: real)
    requires 0 <= IndexOf(base, center, price) < |levels| && center == CenterIndex(|levels|)
    ensures LevelMap(levels[IndexOf(base, center, price) := quantity], base, center)
         == SetLevels(LevelMap(levels, base, center), base, |levels|, price, quantity)
  {
    var index := IndexOf(base, center, price);
    var after := levels[index := quantity];
    var left, right := LevelMap(after, base, center), SetLevels(LevelMap(levels, base, center), base, |levels|, price, quantity);
    forall p
      ensures p in left <==> p in right
      ensures p in left ==> left[p] == right[p]
    {
      assert Positive(after, IndexOf(base, center, p)) <==>
        if p == price then quantity > 0.0 else Positive(levels, IndexOf(base, center, p));
    }
  }

  /** Moving one more array element adds at most the level at its price. */
  lemma LevelMoved(levels: seq<real>, base: int, center: nat, i: nat, newBase: int, before: Levels, after: Levels)
    requires i < |levels|
    requires before == Rebased(LevelMap(levels[..i], base, center), newBase, |levels|)
    requires after ==
      if levels[i] > 0.0 then SetLevels(before, newBase, |levels|, base + (i - center), levels[i]) else before
    ensures after == Rebased(LevelMap(levels[..i + 1], base, center), newBase, |levels|)
  {
    var price := base + (i - center);
    var small, large := LevelMap(levels[..i], base, center), LevelMap(levels[..i + 1], base, center);
    forall p
      ensures p in large <==> p in small || (p == price && levels[i] > 0.0)
      ensures p in small ==> p in large && small[p] == large[p]
      ensures p == price && levels[i] > 0.0 ==> large[p] == levels[i]
    {
      assert Positive(levels[..i + 1], IndexOf(base, center, p)) <==>
        Positive(levels[..i], IndexOf(base, center, p)) || (p == price && levels[i] > 0.0);
    }
    assert price !in small;
  }

  // ---------------------------------------------------------------- bitmap facts

  lemma BitmapSet(oldWords: seq<nat>, words: seq<nat>, oldLevels: seq<real>, levels: seq<real>, index: nat)
    requires BitmapOk(oldWords, oldLevels) && index < |oldLevels| && index / WORD_BITS < |oldWords|
    requires |levels| == |oldLevels| && levels == oldLevels[index := levels[index]] && levels[index] > 0.0
    requires words == oldWords[index / WORD_BITS := Or(oldWords[index / WORD_BITS], Pow2(index % WORD_BITS))]
    ensures BitmapOk(words, levels)
  {
    forall w: nat, k: nat | w < |words|
      ensures Bit(words[w], k) <==> k < WORD_BITS && Positive(levels, w * WORD_BITS + k)
    {
      OrBit(oldWords[w], Pow2(index % WORD_BITS), k);
      Pow2Bit(index % WORD_BITS, k);
      assert Bit(oldWords[w], k) <==> k < WORD_BITS && Positive(oldLevels, w * WORD_BITS + k);
    }
  }

  lemma BitmapCleared(oldWords: seq<nat>, words: seq<nat>, oldLevels: seq<real>, levels: seq<real>, index: nat)
    requires BitmapOk(oldWords, oldLevels) && index < |oldLevels| && index / WORD_BITS < |oldWords|
    requires |levels| == |oldLevels| && levels == oldLevels[index := levels[index]] && levels[index] <= 0.0
    requires words == oldWords[index / WORD_BITS := AndNot(oldWords[index / WORD_BITS], Pow2(index % WORD_BITS))]
    ensures BitmapOk(words, levels)
  {
    forall w: nat, k: nat | w < |words|
      ensures Bit(words[w], k) <==> k < WORD_BITS && Positive(levels, w * WORD_BITS + k)
    {
      AndNotBit(oldWords[w], Pow2(index % WORD_BITS), k);
      Pow2Bit(index % WORD_BITS, k);
      assert Bit(oldWords[w], k) <==> k < WORD_BITS && Positive(oldLevels, w * WORD_BITS + k);
    }
  }

  /** A non-zero bitmap word has its highest bit below bit 64. */
  lemma WordFits(words: seq<nat>, levels: seq<real>, w: nat)
    requires BitmapOk(words, levels) && w < |words| && words[w] != 0
    ensures 1 <= BitLength(words[w]) <= WORD_BITS
  {
    HighestBit(words[w], 0);
    assert Bit(words[w], BitLength(words[w]) - 1);
  }

  lemma HighestInWord(words: seq<nat>, levels: seq<real>, w: nat)
    requires BitmapOk(words, levels) && w < |words| && words[w] != 0
    ensures var index := w * WORD_BITS + BitLength(words[w]) - 1;
      && Positive(levels, index)
      && (forall i :: Positive(levels, i) && i < (w + 1) * WORD_BITS ==> i <= index)
  {
    var index := w * WORD_BITS + BitLength(words[w]) - 1;
    HighestBit(words[w], 0);
    assert Bit(words[w], BitLength(words[w]) - 1);
    forall i | Positive(levels, i) && i < (w + 1) * WORD_BITS
      ensures i <= index
    {
      if i >= w * WORD_BITS {
        var k: nat := i - w * WORD_BITS;
        assert Bit(words[w], k);
        HighestBit(words[w], k);
      }
    }
  }

  lemma LowestInWord(words: seq<nat>, levels: seq<real>, w: nat)
    requires BitmapOk(words, levels) && w < |words| && words[w] != 0
    ensures var index := w * WORD_BITS + TrailingZeros(words[w]);
      && Positive(levels, index)
      && (forall i :: Positive(levels, i) && i >= w * WORD_BITS ==> i >= index)
  {
    var index := w * WORD_BITS + TrailingZeros(words[w]);
    LowestBit(words[w], 0);
    assert Bit(words[w], TrailingZeros(words[w]));
    forall i | Positive(levels, i) && i >= w * WORD_BITS
      ensures i >= index
    {
      if i < index {
        var k: nat := i - w * WORD_BITS;
        assert Bit(words[w], k);
        LowestBit(words[w], k);
      }
    }
  }

  lemma EmptyWord(words: seq<nat>, levels: seq<real>, w: nat)
    requires BitmapOk(words, levels) && w < |words| && words[w] == 0
    ensures forall i :: w * WORD_BITS <= i < (w + 1) * WORD_BITS ==> !Positive(levels, i)
  {
    forall i | w * WORD_BITS <= i < (w + 1) * WORD_BITS
      ensures !Positive(levels, i)
    {
      ZeroHasNoBit(i - w * WORD_BITS);
      assert !Bit(words[w], i - w * WORD_BITS);
    }
  }
}
