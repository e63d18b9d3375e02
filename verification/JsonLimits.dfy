/** What the JSON parser does with text that is cut short or goes on, with decimals, and with integers out of range. */
module JsonLimits {
  import opened Wrappers
  import opened JsonText
  import opened JsonDocs
  import opened JsonRoundTrip

  // ---------------------------------------------------------------- more text never changes a result

  /** The text of b starts with the text of a. */
  ghost predicate Longer(a: Input, b: Input) {
    a.text <= b.text && a.toDouble == b.toDouble
  }

  /** A word at i that only the longer text completes reaches to the end of the shorter one. */
  lemma {:induction false} SameStart(a: string, b: string, i: nat)
    requires a <= b && i < |a|
    ensures StartsValue(a, i) ==> StartsValue(b, i)
    ensures StartsValue(b, i) && !StartsValue(a, i) ==> forall j :: i <= j < |a| ==> !StartsValue(a, j) && !IsClosing(a[j])
  {
    assert forall j :: 0 <= j < |a| ==> a[j] == b[j];
  }

  lemma {:induction false} SameSkip(a: string, b: string, i: nat)
    requires a <= b && i <= |a| && SkipToValue(a, i) < |a|
    ensures SkipToValue(b, i) == SkipToValue(a, i)
    ensures StartsValue(b, SkipToValue(a, i)) == StartsValue(a, SkipToValue(a, i))
    decreases |a| - i
  {
    var r := SkipToValue(a, i);
    SameStart(a, b, i);
    if StartsValue(a, i) || IsClosing(a[i]) {
    } else {
      assert !StartsValue(b, i);
      SameSkip(a, b, i + 1);
    }
  }

  lemma {:induction false} SameSeparator(a: string, b: string, i: nat)
    requires a <= b && i <= |a| && SkipToSeparator(a, i) < |a|
    ensures SkipToSeparator(b, i) == SkipToSeparator(a, i)
    decreases |a| - i
  {
    if i < |a| && !IsSeparator(a[i]) { SameSeparator(a, b, i + 1); }
  }

  lemma {:induction false} SameQuote(a: string, b: string, i: nat)
    requires a <= b && i <= |a| && SkipToQuote(a, i) < |a|
    ensures SkipToQuote(b, i) == SkipToQuote(a, i)
    decreases |a| - i
  {
    if i < |a| && a[i] != '"' { SameQuote(a, b, i + 1); }
  }

  lemma {:induction false} SameKeyStart(a: string, b: string, i: nat)
    requires a <= b && i <= |a| && SkipToKey(a, i) < |a|
    ensures SkipToKey(b, i) == SkipToKey(a, i)
    decreases |a| - i
  {
    if i < |a| && a[i] != '"' && a[i] != '}' { SameKeyStart(a, b, i + 1); }
  }

  lemma {:induction false} SameStringEnd(a: string, b: string, i: nat, escaped: bool)
    requires a <= b && i <= |a| && StringEnd(a, i, escaped) < |a|
    ensures StringEnd(b, i, escaped) == StringEnd(a, i, escaped)
    decreases |a| - i
  {
    if i < |a| && (escaped || a[i] != '"') {
      SameStringEnd(a, b, i + 1, !escaped && a[i] == '\\');
    }
  }

  lemma {:induction false} SameNumberEnd(a: string, b: string, i: nat)
    requires a <= b && i <= |a| && NumberEnd(a, i) < |a| && SkipToSeparator(a, NumberEnd(a, i)) < |a|
    ensures NumberEnd(b, i) == NumberEnd(a, i)
    decreases |a| - i
  {
    if i < |a| && InNumber(a, i) {
      SameNumberEnd(a, b, i + 1);
    } else if i + 1 == |a| {
      assert SkipToSeparator(a, i) < |a|;
    }
  }

  lemma SameObjectHead(a: string, b: string, i: nat)
    requires a <= b && i <= |a| && !ObjectHead(a, i).NoKey?
    ensures ObjectHead(b, i) == ObjectHead(a, i)
  {
    if a[i] != '}' {
      var start := SkipToKey(a, i);
      SameKeyStart(a, b, i);
      if a[start] == '"' {
        SameQuote(a, b, start + 1);
        assert b[start + 1..SkipToQuote(a, start + 1)] == a[start + 1..SkipToQuote(a, start + 1)];
      }
    }
  }

  /** A scalar that is read up to a separator. */
  lemma SameScalar(a: Input, b: Input, i: nat)
    requires Longer(a, b) && i < |a.text| && StartsValue(a.text, i) && a.text[i] != '{' && a.text[i] != '['
    requires ToSeparator(a, Scalar(a, i)).Ok?
    ensures StartsValue(b.text, i) && ToSeparator(b, Scalar(b, i)) == ToSeparator(a, Scalar(a, i))
  {
    var r := Scalar(a, i);
    SameStart(a.text, b.text, i);
    SameSeparator(a.text, b.text, r.next);
    if a.text[i] == '"' {
      SameStringEnd(a.text, b.text, i + 1, false);
      assert b.text[i + 1..r.next - 1] == a.text[i + 1..r.next - 1];
    } else if IsNumber(a.text[i]) {
      SameNumberEnd(a.text, b.text, i);
      assert b.text[i..r.next] == a.text[i..r.next];
    }
  }

  lemma {:induction false} SameValue(a: Input, b: Input, i: nat)
    requires Longer(a, b) && i <= |a.text| && !Value(a, i).Invalid?
    ensures Value(b, i) == Value(a, i)
    decreases |a.text| - i, 1
  {
    var start := SkipToValue(a.text, i);
    SameSkip(a.text, b.text, i);
    match ValueHead(a, i)
    case NoValue =>
    case Closing(at) =>
      assert ValueHead(b, i) == Closing(at);
    case Opening(at) =>
      assert ValueHead(b, i) == Opening(at);
      SameOpened(a, b, at);
      if Opened(a, at).Ok? { SameSeparator(a.text, b.text, Opened(a, at).next); }
    case Single(r) =>
      SameScalar(a, b, start);
      assert ValueHead(b, i) == Single(Scalar(b, start));
  }

  lemma {:induction false} SameOpened(a: Input, b: Input, i: nat)
    requires Longer(a, b) && i < |a.text| && (a.text[i] == '{' || a.text[i] == '[') && !Opened(a, i).Invalid?
    ensures b.text[i] == a.text[i] && Opened(b, i) == Opened(a, i)
    decreases |a.text| - i, 0
  {
    if a.text[i] == '{' {
      SameObject(a, b, i + 1, Null);
    } else {
      SameArray(a, b, i + 1, Null);
    }
  }

  lemma {:induction false} SameObject(a: Input, b: Input, i: nat, acc: Json)
    requires Longer(a, b) && i <= |a.text| && !Object(a, i, acc).Invalid?
    ensures Object(b, i, acc) == Object(a, i, acc)
    decreases |a.text| - i, 2
  {
    var head := ObjectHead(a.text, i);
    SameObjectHead(a.text, b.text, i);
    if head.Field? {
      var r := Value(a, head.next);
      SameValue(a, b, head.next);
      if r.Ok? {
        assert AfterComma(b.text, r.next) == AfterComma(a.text, r.next);
        SameObject(a, b, AfterComma(a.text, r.next), Put(acc, CString(head.key), r.value));
      }
    }
  }

  lemma {:induction false} SameArray(a: Input, b: Input, i: nat, acc: Json)
    requires Longer(a, b) && i <= |a.text| && !Array(a, i, acc).Invalid?
    ensures Array(b, i, acc) == Array(a, i, acc)
    decreases |a.text| - i, 2
  {
    if a.text[i] != ']' {
      var r := Value(a, i);
      SameValue(a, b, i);
      if r.Ok? && a.text[r.next] != '}' {
        assert AfterComma(b.text, r.next) == AfterComma(a.text, r.next);
        SameArray(a, b, AfterComma(a.text, r.next), Push(acc, r.value));
      }
    }
  }

  lemma {:induction false} SameBracket(a: string, b: string, i: nat)
    requires a <= b && i <= |a| && SkipToBracket(a, i) < |a|
    ensures SkipToBracket(b, i) == SkipToBracket(a, i)
    decreases |a| - i
  {
    if i < |a| && a[i] != '{' && a[i] != '[' { SameBracket(a, b, i + 1); }
  }

  /** Whatever follows the text does not matter once the parser has a container, or is lost in one. */
  lemma LaterTextIsIgnored(a: Input, b: Input)
    requires Longer(a, b) && Parse(a) != Returns(Null)
    ensures Parse(b) == Parse(a)
  {
    var start := SkipToBracket(a.text, 0);
    SameBracket(a.text, b.text, 0);
    SameOpened(a, b, start);
    assert Parse(b) == ToAnswer(Opened(b, start));
  }

  /** The first n characters. */
  function Cut(s: Input, n: nat): Input
    requires n <= |s.text|
  {
    s.(text := s.text[..n])
  }

  lemma {:induction false} NoBracketBefore(t: string, i: nat)
    requires i <= |t| && forall j :: i <= j < |t| ==> t[j] != '{' && t[j] != '['
    ensures SkipToBracket(t, i) == |t|
    decreases |t| - i
  {
    if i < |t| { NoBracketBefore(t, i + 1); }
  }

  /** A written array or object that is cut short anywhere before its end is read as null: never as part of it. */
  lemma CutShortIsNull(s: Input, i: nat, d: Doc, n: nat)
    requires WellFormed(d) && Readable(d) && IsContainer(d) && i <= |s.text| && Laid(s.text, i, d).Some?
    requires forall j :: 0 <= j < i ==> s.text[j] != '{' && s.text[j] != '['
    requires n < Laid(s.text, i, d).value
    ensures n <= |s.text| && Parse(Cut(s, n)) == Returns(Null)
  {
    var a, e := Cut(s, n), Laid(s.text, i, d).value;
    ContainerReads(s, i, d, e);
    if n <= i {
      NoBracketBefore(a.text, 0);
    } else {
      BracketFound(a.text, 0, i);
      if !Opened(a, i).Invalid? { SameOpened(a, s, i); }
    }
  }

  // ---------------------------------------------------------------- where a value starts

  /** The character would continue the word. */
  predicate Continues(w: string, c: char) {
    'a' <= c <= 'z' || 'A' <= c <= 'Z' || (w == "null" && ('0' <= c <= '9' || c == '-'))
  }

  /** The word stands at i, and a character that does not continue it follows. */
  ghost predicate WordAt(t: string, i: nat, w: string) {
    At(t, i, w) && i + |w| < |t| && !Continues(w, t[i + |w|])
  }

  lemma LettersAt(t: string, i: nat, w: string)
    requires w == "true" || w == "false" || w == "null"
    ensures At(t, i, w) <==>
      (&& i + |w| <= |t| && t[i] == w[0] && t[i + 1] == w[1] && t[i + 2] == w[2] && t[i + 3] == w[3]
       && (|w| == 5 ==> t[i + 4] == w[4]))
  {
    if At(t, i, w) {
      AtChar(t, i, w, 0);
      AtChar(t, i, w, 1);
      AtChar(t, i, w, 2);
      AtChar(t, i, w, 3);
      if |w| == 5 { AtChar(t, i, w, 4); }
    }
  }

  /** A value starts at a quote, an opening bracket, a digit or minus sign, or a whole word; anything else is skipped. */
  lemma ValueStarts(t: string, i: nat)
    requires i < |t|
    ensures StartsValue(t, i) <==>
      t[i] in "\"{[-0123456789" || WordAt(t, i, "true") || WordAt(t, i, "false") || WordAt(t, i, "null")
  {
    LettersAt(t, i, "true");
    LettersAt(t, i, "false");
    LettersAt(t, i, "null");
  }

  // ---------------------------------------------------------------- numbers

  predicate DecimalChar(w: string, j: nat)
    requires j < |w|
  {
    IsNumber(w[j]) || w[j] == '.' || (w[j] == 'e' && j + 1 < |w| && w[j + 1] == '-')
  }

  /** Text of a decimal: digits, minus signs, dots, and "e" before a minus sign. */
  predicate DecimalText(w: string) {
    w != "" && IsNumber(w[0]) && '.' in w && forall j: nat :: j < |w| ==> DecimalChar(w, j)
  }

  lemma {:induction false} DecimalEnd(t: string, i: nat, w: string, j: nat)
    requires At(t, i, w) && DecimalText(w) && j <= |w| && Ended(t, i + |w|)
    ensures NumberEnd(t, i + j) == i + |w|
    decreases |w| - j
  {
    if j < |w| {
      AtChar(t, i, w, j);
      if j + 1 < |w| { AtChar(t, i, w, j + 1); }
      assert DecimalChar(w, j);
      DecimalEnd(t, i, w, j + 1);
    }
  }

  /** A number with a dot is read as the library reads its whole text as a double; where the library refuses it, so does the parser. */
  lemma DecimalReads(s: Input, i: nat, w: string)
    requires At(s.text, i, w) && DecimalText(w) && Ended(s.text, i + |w|) && SeparatorFollows(s.text, i + |w|)
    ensures Value(s, i) ==
      match s.toDouble(w)
      case None => Invalid
      case Some(d) => Ok(Double(d), SkipBlanks(s.text, i + |w|))
  {
    AtChar(s.text, i, w, 0);
    AtSlice(s.text, i, w);
    DecimalEnd(s.text, i, w, 0);
    assert Scalar(s, i) == Number(s, i);
    BlanksBeforeSeparator(s.text, i + |w|);
    assert ValueHead(s, i) == Single(Number(s, i));
  }

  /** An integer outside 64 bits is refused. */
  lemma TooLargeIsRefused(s: Input, i: nat, n: int)
    requires !IsInt64(n) && At(s.text, i, PrintInt(n)) && Ended(s.text, i + |PrintInt(n)|)
    ensures Value(s, i) == Invalid
  {
    var w := PrintInt(n);
    IntText(n);
    forall j | i <= j < i + |w|
      ensures IsNumber(s.text[j])
    {
      AtChar(s.text, i, w, j - i);
    }
    NumberRead(s.text, i, i + |w|);
    AtSlice(s.text, i, w);
    IntRefused(n);
    assert ValueHead(s, i) == Single(Number(s, i));
  }

  lemma IntRefused(i: int)
    requires !IsInt64(i)
    ensures ReadInt(PrintInt(i)) == None
  {
    var w, n := PrintInt(i), if i < 0 then -i else i;
    PrintNatValue(n);
    var first := if i < 0 then 1 else 0;
    assert w[first..|w|] == PrintNat(n);
    assert w[0] == '-' <==> i < 0;
    DigitsRead(w, first);
  }

  // ---------------------------------------------------------------- repeated keys and empty containers

  /** The entry is the last one with its key. */
  predicate IsLast(entries: seq<Entry>, k: nat)
    requires k < |entries|
  {
    forall j :: k < j < |entries| ==> entries[j].key != entries[k].key
  }

  lemma {:induction false} LastFieldWins(entries: seq<Entry>, n: nat, k: nat)
    requires k < n <= |entries| && IsLast(entries, k)
    ensures entries[k].key in FieldsTo(entries, n) && FieldsTo(entries, n)[entries[k].key] == ValueOf(entries[k].value)
  {
    if k < n - 1 { LastFieldWins(entries, n - 1, k); }
  }

  /** Of an object whose keys repeat, the last value of each key is read. */
  lemma RepeatedKeysRead(s: Input, i: nat, entries: seq<Entry>, e: nat, k: nat)
    requires i < |s.text| && s.text[i] == '{' && forall j :: 0 <= j < i ==> s.text[j] != '{' && s.text[j] != '['
    requires entries != [] && EntriesLeft(s.text, i + 1, entries, 0, e) && k < |entries| && IsLast(entries, k)
    ensures Parse(s) == Returns(Obj(FieldsTo(entries, |entries|)))
    ensures entries[k].key in FieldsTo(entries, |entries|)
    ensures FieldsTo(entries, |entries|)[entries[k].key] == ValueOf(entries[k].value)
  {
    BracketFound(s.text, 0, i);
    ObjectReads(s, i + 1, entries, 0, e);
    FirstEntry(s.text, i + 1, entries, 0);
    LastFieldWins(entries, |entries|, k);
  }

  /** An array or object that is closed at once is read as null. */
  lemma EmptyContainerIsNull(s: Input, i: nat)
    requires i + 1 < |s.text| && forall j :: 0 <= j < i ==> s.text[j] != '{' && s.text[j] != '['
    requires (s.text[i] == '[' && s.text[i + 1] == ']') || (s.text[i] == '{' && s.text[i + 1] == '}')
    ensures Parse(s) == Returns(Null)
  {
    BracketFound(s.text, 0, i);
    if s.text[i] == '[' {
      assert Array(s, i + 1, Null) == Ok(Null, i + 2);
    } else {
      assert ObjectHead(s.text, i + 1) == End(i + 2);
    }
    assert Opened(s, i) == Ok(Null, i + 2);
  }

  /** What the printer writes: no blanks, and commas between the items. */
  lemma PrintedArray()
    ensures Print(ArrDoc([NullDoc, BoolDoc(true), BoolDoc(false), StrDoc("a")])) == "[null,true,false,\"a\"]"
  {
    var items := [NullDoc, BoolDoc(true), BoolDoc(false), StrDoc("a")];
    assert ItemsFrom(items, 4) == "]";
    assert ItemsFrom(items, 3) == ",\"a\"]";
    assert ItemsFrom(items, 2) == ",false,\"a\"]";
    assert ItemsFrom(items, 1) == ",true,false,\"a\"]";
  }

  lemma PrintedNumbers()
    ensures PrintInt(0) == "0" && PrintInt(-12) == "-12" && PrintInt(305) == "305"
  {
    assert PrintNat(1) == "1" && PrintNat(12) == "12";
    assert PrintNat(3) == "3" && PrintNat(30) == "30" && PrintNat(305) == "305";
  }

  /** Fields are quoted keys with a colon. */
  lemma PrintedObject()
    ensures Print(ObjDoc([Entry("k", IntDoc(-12)), Entry("l", IntDoc(305))])) == "{\"k\":-12,\"l\":305}"
  {
    PrintedNumbers();
    var entries := [Entry("k", IntDoc(-12)), Entry("l", IntDoc(305))];
    assert EntriesFrom(entries, 2) == "}";
    assert EntriesFrom(entries, 1) == ",\"l\":305}";
  }
}
