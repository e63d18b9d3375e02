/**
  When the JSON parser does not return, said of the text alone. A scan keeps a position and the stack of brackets
  that are open, builds no value, and moves only by the scanners of the parser and its number conversions.
 */
module JsonScan {
  import opened Wrappers
  import opened JsonText

  /** The position where a container loop starts a round, and the open brackets, innermost last. */
  datatype Scan = Scan(pos: nat, open: string)

  predicate InText(s: Input, c: Scan) {
    c.pos <= |s.text| && c.open != [] && forall k :: 0 <= k < |c.open| ==> c.open[k] == '{' || c.open[k] == '['
  }

  function Top(c: Scan): char
    requires c.open != []
  {
    c.open[|c.open| - 1]
  }

  /** A closing brace stands where the loop of an array starts a round. */
  predicate Stuck(s: Input, c: Scan) {
    c.open != [] && Top(c) == '[' && c.pos < |s.text| && s.text[c.pos] == '}'
  }

  /** A value ends at `next`: the loop around it goes on behind the next separator. */
  function Resume(s: Input, next: nat, open: string): Option<Scan>
    requires next <= |s.text|
  {
    var q := SkipToSeparator(s.text, next);
    if q == |s.text| then None else Some(Scan(AfterComma(s.text, q), open))
  }

  /** A value is expected at i: a bracket is opened, a scalar is passed, or the text is at an end. */
  function Enter(s: Input, i: nat, open: string): Option<Scan>
    requires i <= |s.text|
  {
    match ValueHead(s, i)
    case NoValue => None
    case Closing(at) => Some(Scan(at, open))
    case Opening(at) => Some(Scan(at + 1, open + [s.text[at]]))
    case Single(r) => if r.Ok? then Resume(s, r.next, open) else None
  }

  /** The innermost container ends at `next`. */
  function Close(s: Input, next: nat, open: string): Option<Scan>
    requires next <= |s.text| && open != []
  {
    if |open| == 1 then None else Resume(s, next, open[..|open| - 1])
  }

  /** One round of the innermost loop; None when the whole parse is over. */
  function Move(s: Input, c: Scan): (r: Option<Scan>)
    requires InText(s, c)
    ensures r.Some? ==> InText(s, r.value) && (Stuck(s, c) || r.value.pos > c.pos)
  {
    if Top(c) == '{' then
      match ObjectHead(s.text, c.pos)
      case NoKey => None
      case End(next) => Close(s, next, c.open)
      case Field(_, next) => Enter(s, next, c.open)
    else if c.pos == |s.text| then None
    else if s.text[c.pos] == ']' then Close(s, c.pos + 1, c.open)
    else Enter(s, c.pos, c.open)
  }

  /** One more round, if the parse goes on. */
  function Onward(s: Input, c: Option<Scan>): (r: Option<Scan>)
    requires c.Some? ==> InText(s, c.value)
    ensures r.Some? ==> InText(s, r.value)
  {
    if c.Some? then Move(s, c.value) else None
  }

  /** The scan after n rounds. */
  function After(s: Input, c: Scan, n: nat): (r: Option<Scan>)
    requires InText(s, c)
    ensures r.Some? ==> InText(s, r.value)
  {
    if n == 0 then Some(c) else Onward(s, After(s, c, n - 1))
  }

  /** Some round starts stuck. */
  ghost predicate GetsStuck(s: Input, c: Scan)
    requires InText(s, c)
  {
    exists n: nat :: After(s, c, n).Some? && Stuck(s, After(s, c, n).value)
  }

  /** The scan of the whole text, from behind its first bracket, gets stuck. */
  ghost predicate TextGetsStuck(s: Input) {
    var start := SkipToBracket(s.text, 0);
    start < |s.text| && GetsStuck(s, Scan(start + 1, [s.text[start]]))
  }

  // ---------------------------------------------------------------- deciding it round by round

  ghost function Hits(s: Input, c: Scan): bool
    requires InText(s, c)
    decreases |s.text| - c.pos
  {
    if Stuck(s, c) then true
    else
      match Move(s, c)
      case None => false
      case Some(d) => Hits(s, d)
  }

  ghost function HitsFrom(s: Input, c: Option<Scan>): bool
    requires c.Some? ==> InText(s, c.value)
  {
    c.Some? && Hits(s, c.value)
  }

  lemma {:induction false} AfterFirst(s: Input, c: Scan, d: Scan, n: nat)
    requires InText(s, c) && Move(s, c) == Some(d)
    ensures After(s, c, n + 1) == After(s, d, n)
  {
    if n == 0 {
      assert After(s, c, 0) == Some(c);
      assert After(s, c, 1) == After(s, d, 0);
    } else {
      AfterFirst(s, c, d, n - 1);
      assert After(s, c, n + 1) == Onward(s, After(s, c, n)) == After(s, d, n);
    }
  }

  lemma {:induction false} NothingAfter(s: Input, c: Scan, n: nat)
    requires InText(s, c) && Move(s, c) == None
    ensures After(s, c, n + 1) == None
  {
    if n > 0 { NothingAfter(s, c, n - 1); }
  }

  lemma {:induction false} HitsIsStuck(s: Input, c: Scan)
    requires InText(s, c)
    ensures Hits(s, c) <==> GetsStuck(s, c)
    decreases |s.text| - c.pos
  {
    if Stuck(s, c) {
      assert After(s, c, 0) == Some(c);
    } else {
      var next := Move(s, c);
      if next.Some? { HitsIsStuck(s, next.value); }
      if Hits(s, c) {
        var n: nat :| After(s, next.value, n).Some? && Stuck(s, After(s, next.value, n).value);
        AfterFirst(s, c, next.value, n);
        assert After(s, c, n + 1).Some?;
      }
      if GetsStuck(s, c) {
        var n: nat :| After(s, c, n).Some? && Stuck(s, After(s, c, n).value);
        if next.Some? {
          AfterFirst(s, c, next.value, n - 1);
        } else {
          NothingAfter(s, c, n - 1);
        }
      }
    }
  }

  // ---------------------------------------------------------------- the parse functions follow the scan

  predicate Brackets(open: string) {
    forall k :: 0 <= k < |open| ==> open[k] == '{' || open[k] == '['
  }

  /** What the scan does once a container has been parsed. */
  ghost function Outcome(s: Input, r: Parsed, open: string): bool
    requires open != [] && Brackets(open) && (r.Ok? ==> r.next <= |s.text|)
  {
    match r
    case Hangs => true
    case Invalid => false
    case Ok(_, next) => HitsFrom(s, Close(s, next, open))
  }

  /** What the scan does once a value has been parsed up to its separator. */
  ghost function ValueOutcome(s: Input, r: Parsed, open: string): bool
    requires open != [] && Brackets(open) && (r.Ok? ==> r.next < |s.text|)
  {
    match r
    case Hangs => true
    case Invalid => false
    case Ok(_, q) => Hits(s, Scan(AfterComma(s.text, q), open))
  }

  lemma FieldMove(s: Input, i: nat, open: string)
    requires i <= |s.text| && InText(s, Scan(i, open)) && Top(Scan(i, open)) == '{' && ObjectHead(s.text, i).Field?
    ensures Hits(s, Scan(i, open)) == HitsFrom(s, Enter(s, ObjectHead(s.text, i).next, open))
  {
    assert Move(s, Scan(i, open)) == Enter(s, ObjectHead(s.text, i).next, open);
  }

  lemma ItemMove(s: Input, i: nat, open: string)
    requires i < |s.text| && InText(s, Scan(i, open)) && Top(Scan(i, open)) == '[' && !IsClosing(s.text[i])
    ensures Hits(s, Scan(i, open)) == HitsFrom(s, Enter(s, i, open))
  {
    assert Move(s, Scan(i, open)) == Enter(s, i, open);
  }

  lemma {:induction false} ObjectScan(s: Input, i: nat, acc: Json, outer: string)
    requires i <= |s.text| && Brackets(outer)
    ensures Hits(s, Scan(i, outer + ['{'])) == Outcome(s, Object(s, i, acc), outer + ['{'])
    decreases |s.text| - i, 2
  {
    var open, head := outer + ['{'], ObjectHead(s.text, i);
    if head.Field? {
      var r := Value(s, head.next);
      ValueScan(s, head.next, open);
      FieldMove(s, i, open);
      if r.Ok? {
        ObjectScan(s, AfterComma(s.text, r.next), Put(acc, CString(head.key), r.value), outer);
        assert Hits(s, Scan(i, open)) == Outcome(s, Object(s, i, acc), open);
      }
    }
  }

  lemma {:induction false} ArrayScan(s: Input, i: nat, acc: Json, outer: string)
    requires i <= |s.text| && Brackets(outer)
    ensures Hits(s, Scan(i, outer + ['['])) == Outcome(s, Array(s, i, acc), outer + ['['])
    decreases |s.text| - i, 2
  {
    var open := outer + ['['];
    if i < |s.text| && s.text[i] == '}' {
      assert ValueHead(s, i) == Closing(i);
    } else if i < |s.text| && s.text[i] != ']' {
      var r := Value(s, i);
      ValueScan(s, i, open);
      ItemMove(s, i, open);
      if r.Ok? && s.text[r.next] != '}' {
        ArrayScan(s, AfterComma(s.text, r.next), Push(acc, r.value), outer);
        assert Hits(s, Scan(i, open)) == Outcome(s, Array(s, i, acc), open);
      }
    }
  }

  /** After a value the scan is at the separator where the parser is. */
  lemma {:induction false} ValueScan(s: Input, i: nat, open: string)
    requires i <= |s.text| && open != [] && Brackets(open)
    ensures Enter(s, i, open).Some? ==> InText(s, Enter(s, i, open).value)
    ensures HitsFrom(s, Enter(s, i, open)) == ValueOutcome(s, Value(s, i), open)
    decreases |s.text| - i, 1
  {
    match ValueHead(s, i) {
      case NoValue =>
      case Closing(at) =>
      case Opening(at) =>
        OpenedScan(s, at, open);
        AtSeparator(s, Opened(s, at), open);
      case Single(r) =>
        AtSeparator(s, r, open);
    }
  }

  /** A bracket that is opened is scanned to its end. */
  lemma {:induction false} OpenedScan(s: Input, at: nat, outer: string)
    requires at < |s.text| && (s.text[at] == '{' || s.text[at] == '[') && Brackets(outer)
    ensures Brackets(outer + [s.text[at]])
    ensures Hits(s, Scan(at + 1, outer + [s.text[at]])) == Outcome(s, Opened(s, at), outer + [s.text[at]])
    decreases |s.text| - at, 0
  {
    if s.text[at] == '{' {
      ObjectScan(s, at + 1, Null, outer);
    } else {
      ArrayScan(s, at + 1, Null, outer);
    }
  }

  /** Behind a container or a scalar the scan and the parser go on at the same separator. */
  lemma AtSeparator(s: Input, r: Parsed, open: string)
    requires open != [] && Brackets(open) && (r.Ok? ==> r.next <= |s.text|)
    ensures r.Ok? ==> HitsFrom(s, Resume(s, r.next, open)) == ValueOutcome(s, ToSeparator(s, r), open)
    ensures forall c {:trigger open + [c]} :: c == '{' || c == '[' ==>
      Outcome(s, r, open + [c]) == ValueOutcome(s, ToSeparator(s, r), open)
  {
    forall c | c == '{' || c == '['
      ensures Outcome(s, r, open + [c]) == ValueOutcome(s, ToSeparator(s, r), open)
    {
      assert (open + [c])[..|open|] == open;
    }
  }

  /**
    The parser fails to return exactly when the scan gets stuck: the loop of an array comes to a closing brace.
   */
  lemma HangsExactlyWhenStuck(s: Input)
    ensures Parse(s) == NeverReturns <==> TextGetsStuck(s)
  {
    var start := SkipToBracket(s.text, 0);
    if start < |s.text| {
      var c := Scan(start + 1, [s.text[start]]);
      assert [] + [s.text[start]] == [s.text[start]];
      OpenedScan(s, start, []);
      HitsIsStuck(s, c);
    }
  }
}
