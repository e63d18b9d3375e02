/**
  The JSON parser on text in which a document is written: it gives the document's value,
  whatever the order of the fields and the blanks between the tokens.
 */
module JsonRoundTrip {
  import opened Wrappers
  import opened JsonText
  import opened JsonDocs

  // ---------------------------------------------------------------- reading text back

  function CharOf(w: string, j: nat): char
    requires j < |w|
  {
    w[j]
  }

  /** The text w stands at i. */
  ghost predicate At(t: string, i: nat, w: string) {
    i + |w| <= |t| && forall j: nat {:trigger CharOf(w, j)} :: j < |w| ==> t[i + j] == CharOf(w, j)
  }

  lemma AtChar(t: string, i: nat, w: string, j: nat)
    requires At(t, i, w) && j < |w|
    ensures t[i + j] == w[j]
  {
    assert CharOf(w, j) == w[j];
  }

  lemma AtSlice(t: string, i: nat, w: string)
    ensures At(t, i, w) <==> i + |w| <= |t| && t[i..i + |w|] == w
  {
    if At(t, i, w) {
      forall j: nat | j < |w| ensures t[i..i + |w|][j] == w[j] { AtChar(t, i, w, j); }
    } else if i + |w| <= |t| {
      var j: nat :| j < |w| && t[i + j] != CharOf(w, j);
      assert t[i..i + |w|][j] != w[j];
    }
  }

  lemma AtParts(t: string, i: nat, a: string, b: string)
    requires At(t, i, a + b)
    ensures At(t, i, a) && At(t, i + |a|, b)
  {
    AtSlice(t, i, a + b);
    AtSlice(t, i, a);
    AtSlice(t, i + |a|, b);
    assert (a + b)[..|a|] == a && (a + b)[|a|..] == b;
    assert t[i..i + |a|] == t[i..i + |a + b|][..|a|];
    assert t[i + |a|..i + |a| + |b|] == t[i..i + |a + b|][|a|..];
  }

  lemma AtThree(t: string, i: nat, w: string, a: string, b: string, c: string)
    requires At(t, i, w) && w == a + (b + c)
    ensures At(t, i, a) && At(t, i + |a|, b) && At(t, i + |a| + |b|, c)
    ensures |w| == |a| + |b| + |c|
  {
    AtParts(t, i, a, b + c);
    AtParts(t, i + |a|, b, c);
  }

  predicate IsBlank(c: char) {
    c == ' ' || c == '\t' || c == '\n' || c == '\r'
  }

  function SkipBlanks(t: string, i: nat): (r: nat)
    requires i <= |t|
    ensures i <= r <= |t| && (r < |t| ==> !IsBlank(t[r]))
    decreases |t| - i
  {
    if i < |t| && IsBlank(t[i]) then SkipBlanks(t, i + 1) else i
  }

  /** What has been read ends at e: blanks or a separator follow. */
  predicate Ended(t: string, e: nat) {
    e < |t| && (IsBlank(t[e]) || IsSeparator(t[e]))
  }

  lemma {:induction false} QuoteFound(t: string, i: nat, at: nat)
    requires i <= at < |t| && t[at] == '"' && forall j :: i <= j < at ==> t[j] != '"'
    ensures SkipToQuote(t, i) == at
    decreases at - i
  {
    if i < at { QuoteFound(t, i + 1, at); }
  }

  lemma {:induction false} StringRead(t: string, i: nat, x: string, j: nat, escaped: bool)
    requires At(t, i, x + "\"") && j <= |x| && Balanced(x, j, escaped)
    ensures StringEnd(t, i + j, escaped) == i + |x|
    decreases |x| - j
  {
    AtChar(t, i, x + "\"", j);
    if j < |x| {
      StringRead(t, i, x, j + 1, !escaped && x[j] == '\\');
    }
  }

  lemma {:induction false} NumberRead(t: string, i: nat, e: nat)
    requires i <= e && Ended(t, e) && forall j :: i <= j < e ==> IsNumber(t[j])
    ensures NumberEnd(t, i) == e
    decreases e - i
  {
    if i < e { NumberRead(t, i + 1, e); }
  }

  lemma {:induction false} DigitsRead(s: string, i: nat)
    requires i <= |s| && forall j :: i <= j < |s| ==> IsDigit(s[j])
    ensures DigitsEnd(s, i) == |s|
    decreases |s| - i
  {
    if i < |s| { DigitsRead(s, i + 1); }
  }

  lemma {:induction false} PrintNatValue(n: nat)
    ensures DigitsValue(PrintNat(n)) == n
  {
    if n < 10 {
      assert [DigitChar(n)][..0] == "";
    } else {
      PrintNatValue(n / 10);
      var r := PrintNat(n);
      assert r[..|r| - 1] == PrintNat(n / 10);
    }
  }

  lemma IntRead(i: int)
    requires IsInt64(i)
    ensures ReadInt(PrintInt(i)) == Some(i)
  {
    var s, n := PrintInt(i), if i < 0 then -i else i;
    PrintNatValue(n);
    var first := if i < 0 then 1 else 0;
    assert s[first..|s|] == PrintNat(n);
    assert s[0] == '-' <==> i < 0;
    DigitsRead(s, first);
  }

  lemma IntText(i: int)
    ensures var s := PrintInt(i);
      s != "" && '.' !in s && forall j :: 0 <= j < |s| ==> IsNumber(s[j])
  {
  }

  lemma NumberReads(s: Input, i: nat, n: int)
    requires IsInt64(n) && At(s.text, i, PrintInt(n)) && Ended(s.text, i + |PrintInt(n)|)
    ensures IsNumber(s.text[i]) && Number(s, i) == Ok(Int(n), i + |PrintInt(n)|)
  {
    var w := PrintInt(n);
    IntText(n);
    forall j | i <= j < i + |w|
      ensures IsNumber(s.text[j])
    {
      AtChar(s.text, i, w, j - i);
    }
    NumberRead(s.text, i, i + |w|);
    AtSlice(s.text, i, w);
    IntRead(n);
  }

  lemma WordReads(s: Input, i: nat, d: Doc)
    requires d.NullDoc? || d.BoolDoc?
    requires At(s.text, i, PrintScalar(d)) && Ended(s.text, i + |PrintScalar(d)|)
    ensures StartsValue(s.text, i) && s.text[i] != '{' && s.text[i] != '['
    ensures Scalar(s, i) == Ok(ValueOf(d), i + |PrintScalar(d)|)
  {
    var w := PrintScalar(d);
    AtChar(s.text, i, w, 0);
    AtChar(s.text, i, w, 1);
    AtChar(s.text, i, w, 2);
    AtChar(s.text, i, w, 3);
    if |w| == 5 { AtChar(s.text, i, w, 4); }
  }

  lemma QuotedParts(t: string, i: nat, x: string)
    requires At(t, i, "\"" + (x + "\""))
    ensures i + |x| + 1 < |t| && t[i] == '"' && At(t, i + 1, x) && At(t, i + 1, x + "\"")
  {
    AtParts(t, i, "\"", x + "\"");
    AtChar(t, i, "\"", 0);
    AtParts(t, i + 1, x, "\"");
  }

  lemma QuotedEnd(t: string, i: nat, x: string)
    requires Balanced(x, 0, false) && At(t, i, x + "\"") && i + |x| < |t|
    ensures StringEnd(t, i, false) == i + |x|
  {
    StringRead(t, i, x, 0, false);
  }

  lemma StringScalar(s: Input, i: nat, x: string)
    requires Balanced(x, 0, false) && At(s.text, i, "\"" + (x + "\""))
    ensures i + |x| + 1 < |s.text| && s.text[i] == '"' && Scalar(s, i) == Ok(Str(x), i + |x| + 2)
  {
    QuotedParts(s.text, i, x);
    QuotedEnd(s.text, i + 1, x);
    AtSlice(s.text, i + 1, x);
  }

  // ---------------------------------------------------------------- a document written with blanks between its tokens

  function PastComma(p: nat, j: nat): nat {
    if j == 0 then p else p + 1
  }

  /** Where a document that is written at i ends, if it is. */
  ghost function Laid(t: string, i: nat, d: Doc): (r: Option<nat>)
    requires i <= |t|
    ensures r.Some? ==> i < r.value <= |t|
    decreases d, 1
  {
    match d
    case ArrDoc(items) => if i < |t| && t[i] == '[' then ItemsEnd(t, i + 1, items, 0) else None
    case ObjDoc(entries) => if i < |t| && t[i] == '{' then EntriesEnd(t, i + 1, entries, 0) else None
    case _ => if At(t, i, PrintScalar(d)) then Some(i + |PrintScalar(d)|) else None
  }

  /** Where the items from j on and the closing bracket end; p is behind the opening bracket or at a separator. */
  ghost function ItemsEnd(t: string, p: nat, items: seq<Doc>, j: nat): (r: Option<nat>)
    requires p <= |t| && j <= |items|
    ensures r.Some? ==> p < r.value <= |t|
    decreases items, |items| - j
  {
    if j == |items| then if p < |t| && t[p] == ']' then Some(p + 1) else None
    else if j > 0 && (p == |t| || t[p] != ',') then None
    else
      match Laid(t, SkipBlanks(t, PastComma(p, j)), items[j])
      case None => None
      case Some(e) => ItemsEnd(t, SkipBlanks(t, e), items, j + 1)
  }

  /** A quoted key, a colon and a value. */
  ghost function EntryEnd(t: string, i: nat, e: Entry): (r: Option<nat>)
    requires i <= |t|
    ensures r.Some? ==> i < r.value <= |t|
    decreases e, 1
  {
    if !At(t, i, Quoted(e.key)) then None
    else
      var colon := SkipBlanks(t, i + |e.key| + 2);
      if colon == |t| || t[colon] != ':' then None else Laid(t, SkipBlanks(t, colon + 1), e.value)
  }

  ghost function EntriesEnd(t: string, p: nat, entries: seq<Entry>, j: nat): (r: Option<nat>)
    requires p <= |t| && j <= |entries|
    ensures r.Some? ==> p < r.value <= |t|
    decreases entries, |entries| - j
  {
    if j == |entries| then if p < |t| && t[p] == '}' then Some(p + 1) else None
    else if j > 0 && (p == |t| || t[p] != ',') then None
    else
      match EntryEnd(t, SkipBlanks(t, PastComma(p, j)), entries[j])
      case None => None
      case Some(e) => EntriesEnd(t, SkipBlanks(t, e), entries, j + 1)
  }

  // ---------------------------------------------------------------- printed text is written that way, without blanks

  lemma PrintStarts(d: Doc)
    ensures Print(d) != "" && !IsBlank(Print(d)[0])
  {
    if d.IntDoc? { IntText(d.i); }
  }

  lemma {:induction false} PrintLaid(t: string, i: nat, d: Doc)
    requires At(t, i, Print(d))
    ensures Laid(t, i, d) == Some(i + |Print(d)|)
    decreases d, 1
  {
    match d
    case ArrDoc(items) => PrintArrayLaid(t, i, items);
    case ObjDoc(entries) => PrintObjectLaid(t, i, entries);
    case _ =>
  }

  lemma {:induction false} PrintArrayLaid(t: string, i: nat, items: seq<Doc>)
    requires At(t, i, Print(ArrDoc(items)))
    ensures Laid(t, i, ArrDoc(items)) == Some(i + |Print(ArrDoc(items))|)
    decreases items, |items| + 1
  {
    AtParts(t, i, "[", ItemsFrom(items, 0));
    AtChar(t, i, "[", 0);
    PrintItemsLaid(t, i + 1, items, 0);
  }

  lemma {:induction false} PrintObjectLaid(t: string, i: nat, entries: seq<Entry>)
    requires At(t, i, Print(ObjDoc(entries)))
    ensures Laid(t, i, ObjDoc(entries)) == Some(i + |Print(ObjDoc(entries))|)
    decreases entries, |entries| + 1
  {
    AtParts(t, i, "{", EntriesFrom(entries, 0));
    AtChar(t, i, "{", 0);
    PrintEntriesLaid(t, i + 1, entries, 0);
  }

  lemma ItemsFromStarts(items: seq<Doc>, j: nat)
    requires 0 < j <= |items|
    ensures ItemsFrom(items, j) != "" && ItemsFrom(items, j)[0] == if j == |items| then ']' else ','
  {
  }

  lemma EntriesFromStarts(entries: seq<Entry>, j: nat)
    requires 0 < j <= |entries|
    ensures EntriesFrom(entries, j) != "" && EntriesFrom(entries, j)[0] == if j == |entries| then '}' else ','
  {
  }

  lemma ItemStep(t: string, p: nat, items: seq<Doc>, j: nat, e: nat)
    requires p <= |t| && j < |items| && (j > 0 ==> p < |t| && t[p] == ',')
    requires e <= |t| && Laid(t, SkipBlanks(t, PastComma(p, j)), items[j]) == Some(e)
    ensures ItemsEnd(t, p, items, j) == ItemsEnd(t, SkipBlanks(t, e), items, j + 1)
  {
  }

  lemma CommaParts(t: string, p: nat, w: string, j: nat, a: string, rest: string)
    requires At(t, p, w) && w == Comma(j) + (a + rest)
    ensures var i := PastComma(p, j);
      && At(t, p, Comma(j)) && At(t, i, a) && At(t, i + |a|, rest) && i + |a| + |rest| == p + |w|
  {
    AtThree(t, p, w, Comma(j), a, rest);
    assert PastComma(p, j) == p + |Comma(j)|;
  }

  lemma ItemParts(t: string, p: nat, items: seq<Doc>, j: nat)
    requires j < |items| && At(t, p, ItemsFrom(items, j))
    ensures var i := PastComma(p, j);
      var w, rest := Print(items[j]), ItemsFrom(items, j + 1);
      && At(t, p, Comma(j)) && At(t, i, w) && At(t, i + |w|, rest) && i + |w| + |rest| == p + |ItemsFrom(items, j)|
  {
    CommaParts(t, p, ItemsFrom(items, j), j, Print(items[j]), ItemsFrom(items, j + 1));
  }

  /** Where the printed text of item j starts and ends; there are no blanks around it. */
  lemma PrintedItem(t: string, p: nat, items: seq<Doc>, j: nat)
    requires j < |items| && At(t, p, ItemsFrom(items, j))
    ensures var i := PastComma(p, j);
      var e := i + |Print(items[j])|;
      && i < |t| && At(t, i, Print(items[j])) && At(t, e, ItemsFrom(items, j + 1))
      && (j > 0 ==> t[p] == ',') && SkipBlanks(t, i) == i && SkipBlanks(t, e) == e
      && e + |ItemsFrom(items, j + 1)| == p + |ItemsFrom(items, j)|
  {
    ItemParts(t, p, items, j);
    if j > 0 { AtChar(t, p, ",", 0); }
    PrintStarts(items[j]);
    AtChar(t, PastComma(p, j), Print(items[j]), 0);
    ItemsFromStarts(items, j + 1);
    AtChar(t, PastComma(p, j) + |Print(items[j])|, ItemsFrom(items, j + 1), 0);
  }

  /** One printed item is passed: its text ends at e, where the next one starts. */
  lemma {:induction false} PrintedItemPassed(t: string, p: nat, items: seq<Doc>, j: nat) returns (e: nat)
    requires j < |items| && At(t, p, ItemsFrom(items, j))
    ensures At(t, e, ItemsFrom(items, j + 1)) && e + |ItemsFrom(items, j + 1)| == p + |ItemsFrom(items, j)|
    ensures ItemsEnd(t, p, items, j) == ItemsEnd(t, e, items, j + 1)
    decreases items, |items| - j, 0
  {
    var i := PastComma(p, j);
    e := i + |Print(items[j])|;
    PrintedItem(t, p, items, j);
    PrintLaid(t, i, items[j]);
    ItemStep(t, p, items, j, e);
  }

  lemma {:induction false} PrintItemsLaid(t: string, p: nat, items: seq<Doc>, j: nat)
    requires j <= |items| && At(t, p, ItemsFrom(items, j))
    ensures ItemsEnd(t, p, items, j) == Some(p + |ItemsFrom(items, j)|)
    decreases items, |items| - j, 1
  {
    if j == |items| {
      AtChar(t, p, "]", 0);
    } else {
      var e := PrintedItemPassed(t, p, items, j);
      PrintItemsLaid(t, e, items, j + 1);
    }
  }

  lemma PrintedKey(t: string, i: nat, e: Entry)
    requires At(t, i, PrintKey(e.key)) && At(t, i + |e.key| + 3, Print(e.value))
    ensures var colon := i + |e.key| + 2;
      && At(t, i, Quoted(e.key)) && colon + 1 < |t| && t[colon] == ':'
      && SkipBlanks(t, colon) == colon && SkipBlanks(t, colon + 1) == colon + 1
  {
    assert PrintKey(e.key) == Quoted(e.key) + ":";
    AtParts(t, i, Quoted(e.key), ":");
    AtChar(t, i + |e.key| + 2, ":", 0);
    PrintStarts(e.value);
    AtChar(t, i + |e.key| + 3, Print(e.value), 0);
  }

  lemma {:induction false} PrintEntryLaid(t: string, i: nat, e: Entry)
    requires At(t, i, PrintKey(e.key)) && At(t, i + |e.key| + 3, Print(e.value))
    ensures EntryEnd(t, i, e) == Some(i + |e.key| + 3 + |Print(e.value)|)
    decreases e
  {
    PrintedKey(t, i, e);
    PrintLaid(t, i + |e.key| + 3, e.value);
  }

  lemma EntryStep(t: string, p: nat, entries: seq<Entry>, j: nat, e: nat)
    requires p <= |t| && j < |entries| && (j > 0 ==> p < |t| && t[p] == ',')
    requires e <= |t| && EntryEnd(t, SkipBlanks(t, PastComma(p, j)), entries[j]) == Some(e)
    ensures EntriesEnd(t, p, entries, j) == EntriesEnd(t, SkipBlanks(t, e), entries, j + 1)
  {
  }

  function PrintedEnd(i: nat, e: Entry): nat {
    i + |e.key| + 3 + |Print(e.value)|
  }

  lemma EntryParts(t: string, p: nat, entries: seq<Entry>, j: nat)
    requires j < |entries| && At(t, p, EntriesFrom(entries, j))
    ensures var i := PastComma(p, j);
      var key, value, rest := PrintKey(entries[j].key), Print(entries[j].value), EntriesFrom(entries, j + 1);
      && At(t, p, Comma(j)) && At(t, i, key) && At(t, i + |key|, value) && At(t, i + |key| + |value|, rest)
      && i + |key| + |value| + |rest| == p + |EntriesFrom(entries, j)|
  {
    var key, value, rest := PrintKey(entries[j].key), Print(entries[j].value), EntriesFrom(entries, j + 1);
    CommaParts(t, p, EntriesFrom(entries, j), j, key, value + rest);
    AtParts(t, PastComma(p, j) + |key|, value, rest);
  }

  /** Where the printed text of entry j starts and ends; there are no blanks around it. */
  lemma PrintedEntry(t: string, p: nat, entries: seq<Entry>, j: nat)
    requires j < |entries| && At(t, p, EntriesFrom(entries, j))
    ensures var i := PastComma(p, j);
      var e := PrintedEnd(i, entries[j]);
      && i < |t| && At(t, i, PrintKey(entries[j].key)) && At(t, i + |entries[j].key| + 3, Print(entries[j].value))
      && At(t, e, EntriesFrom(entries, j + 1))
      && (j > 0 ==> t[p] == ',') && SkipBlanks(t, i) == i && SkipBlanks(t, e) == e
      && e + |EntriesFrom(entries, j + 1)| == p + |EntriesFrom(entries, j)|
  {
    EntryParts(t, p, entries, j);
    if j > 0 { AtChar(t, p, ",", 0); }
    AtChar(t, PastComma(p, j), PrintKey(entries[j].key), 0);
    EntriesFromStarts(entries, j + 1);
    AtChar(t, PrintedEnd(PastComma(p, j), entries[j]), EntriesFrom(entries, j + 1), 0);
  }

  lemma {:induction false} PrintedEntryPassed(t: string, p: nat, entries: seq<Entry>, j: nat) returns (e: nat)
    requires j < |entries| && At(t, p, EntriesFrom(entries, j))
    ensures At(t, e, EntriesFrom(entries, j + 1)) && e + |EntriesFrom(entries, j + 1)| == p + |EntriesFrom(entries, j)|
    ensures EntriesEnd(t, p, entries, j) == EntriesEnd(t, e, entries, j + 1)
    decreases entries, |entries| - j, 0
  {
    var i := PastComma(p, j);
    e := PrintedEnd(i, entries[j]);
    PrintedEntry(t, p, entries, j);
    PrintEntryLaid(t, i, entries[j]);
    EntryStep(t, p, entries, j, e);
  }

  lemma {:induction false} PrintEntriesLaid(t: string, p: nat, entries: seq<Entry>, j: nat)
    requires j <= |entries| && At(t, p, EntriesFrom(entries, j))
    ensures EntriesEnd(t, p, entries, j) == Some(p + |EntriesFrom(entries, j)|)
    decreases entries, |entries| - j, 1
  {
    if j == |entries| {
      AtChar(t, p, "}", 0);
    } else {
      var e := PrintedEntryPassed(t, p, entries, j);
      PrintEntriesLaid(t, e, entries, j + 1);
    }
  }

  // ---------------------------------------------------------------- blanks change nothing

  lemma SameHead(s: Input, i: nat, j: nat)
    requires i <= |s.text| && j <= |s.text| && SkipToValue(s.text, i) == SkipToValue(s.text, j)
    ensures Value(s, i) == Value(s, j)
  {
    assert ValueHead(s, i) == ValueHead(s, j);
  }

  lemma {:induction false} BlanksBeforeValue(t: string, i: nat)
    requires i <= |t|
    ensures SkipToValue(t, i) == SkipToValue(t, SkipBlanks(t, i))
    decreases |t| - i
  {
    if i < |t| && IsBlank(t[i]) { BlanksBeforeValue(t, i + 1); }
  }

  lemma ColonBetween(t: string, i: nat)
    requires i <= |t| && SkipBlanks(t, i) < |t| && t[SkipBlanks(t, i)] == ':'
    ensures SkipToValue(t, i) == SkipToValue(t, SkipBlanks(t, SkipBlanks(t, i) + 1))
  {
    BlanksBeforeValue(t, i);
    assert !StartsValue(t, SkipBlanks(t, i));
    BlanksBeforeValue(t, SkipBlanks(t, i) + 1);
  }

  lemma {:induction false} BlanksBeforeKey(t: string, i: nat)
    requires i <= |t|
    ensures SkipToKey(t, i) == SkipToKey(t, SkipBlanks(t, i))
    decreases |t| - i
  {
    if i < |t| && IsBlank(t[i]) { BlanksBeforeKey(t, i + 1); }
  }

  lemma SameKey(t: string, i: nat, j: nat)
    requires i <= |t| && j <= |t| && SkipToKey(t, i) == SkipToKey(t, j)
    ensures ObjectHead(t, i) == ObjectHead(t, j)
  {
  }

  lemma {:induction false} BlanksBeforeSeparator(t: string, i: nat)
    requires i <= |t| && SkipBlanks(t, i) < |t| && IsSeparator(t[SkipBlanks(t, i)])
    ensures SkipToSeparator(t, i) == SkipBlanks(t, i)
    decreases |t| - i
  {
    if IsBlank(t[i]) { BlanksBeforeSeparator(t, i + 1); }
  }

  // ---------------------------------------------------------------- the parser on a document that is written

  /** A separator follows, perhaps after blanks. */
  predicate SeparatorFollows(t: string, e: nat)
    requires e <= |t|
  {
    SkipBlanks(t, e) < |t| && IsSeparator(t[SkipBlanks(t, e)])
  }

  lemma SingleReads(s: Input, i: nat, d: Doc)
    requires !IsContainer(d) && Readable(d) && WellFormed(d)
    requires At(s.text, i, PrintScalar(d)) && Ended(s.text, i + |PrintScalar(d)|)
    ensures StartsValue(s.text, i) && s.text[i] != '{' && s.text[i] != '['
    ensures Scalar(s, i) == Ok(ValueOf(d), i + |PrintScalar(d)|)
  {
    match d
    case IntDoc(n) => NumberReads(s, i, n);
    case StrDoc(x) => StringScalar(s, i, x);
    case _ => WordReads(s, i, d);
  }

  lemma SingleValue(s: Input, i: nat, v: Json, e: nat)
    requires i < e <= |s.text| && StartsValue(s.text, i) && s.text[i] != '{' && s.text[i] != '['
    requires Scalar(s, i) == Ok(v, e) && SeparatorFollows(s.text, e)
    ensures Value(s, i) == Ok(v, SkipBlanks(s.text, e))
  {
    BlanksBeforeSeparator(s.text, e);
    assert ValueHead(s, i) == Single(Scalar(s, i));
  }

  lemma OpenedValue(s: Input, i: nat, v: Json, e: nat)
    requires i < e <= |s.text| && (s.text[i] == '{' || s.text[i] == '[')
    requires Opened(s, i) == Ok(v, e) && SeparatorFollows(s.text, e)
    ensures Value(s, i) == Ok(v, SkipBlanks(s.text, e))
  {
    BlanksBeforeSeparator(s.text, e);
    assert ValueHead(s, i) == Opening(i);
  }

  lemma OneItem(s: Input, i: nat, acc: Json, v: Json, q: nat)
    requires i < |s.text| && s.text[i] != ']'
    requires Value(s, i) == Ok(v, q) && s.text[q] != '}'
    ensures Array(s, i, acc) == Array(s, AfterComma(s.text, q), Push(acc, v))
  {
  }

  lemma OneField(s: Input, i: nat, acc: Json, v: Json, q: nat)
    requires i <= |s.text| && ObjectHead(s.text, i).Field?
    requires Value(s, ObjectHead(s.text, i).next) == Ok(v, q)
    ensures Object(s, i, acc) == Object(s, AfterComma(s.text, q), Put(acc, CString(ObjectHead(s.text, i).key), v))
  {
  }

  lemma LaidStarts(t: string, i: nat, d: Doc)
    requires i <= |t| && Laid(t, i, d).Some?
    ensures i < |t| && !IsSeparator(t[i])
  {
    if !IsContainer(d) {
      if d.IntDoc? { IntText(d.i); }
      AtChar(t, i, PrintScalar(d), 0);
    }
  }

  /** Reading a document that is written in the text gives its value and stops at the separator that follows it. */
  lemma {:induction false} ValueReads(s: Input, i: nat, d: Doc, e: nat)
    requires Readable(d) && WellFormed(d) && i <= |s.text| && Laid(s.text, i, d) == Some(e) && SeparatorFollows(s.text, e)
    ensures Value(s, i) == Ok(ValueOf(d), SkipBlanks(s.text, e))
    decreases d, 1
  {
    if IsContainer(d) {
      ContainerReads(s, i, d, e);
      OpenedValue(s, i, ValueOf(d), e);
    } else {
      SingleReads(s, i, d);
      SingleValue(s, i, ValueOf(d), e);
    }
  }

  lemma {:induction false} ContainerReads(s: Input, i: nat, d: Doc, e: nat)
    requires Readable(d) && WellFormed(d) && IsContainer(d) && i <= |s.text| && Laid(s.text, i, d) == Some(e)
    ensures i < |s.text| && (s.text[i] == '{' || s.text[i] == '[')
    ensures Opened(s, i) == Ok(ValueOf(d), e)
    decreases d, 0
  {
    match d
    case ArrDoc(items) => WholeArrayReads(s, i + 1, items, e);
    case ObjDoc(entries) => WholeObjectReads(s, i + 1, entries, e);
  }

  /** The array built from the first items. */
  function ArrayTo(items: seq<Doc>, j: nat): Json
    requires j <= |items|
  {
    if j == 0 then Null else Arr(ValuesTo(items, j))
  }

  /** The array loop with the items before j read, at the text that is still to be read. */
  function ArrayAt(s: Input, p: nat, items: seq<Doc>, j: nat): Parsed
    requires p <= |s.text| && j <= |items|
  {
    Array(s, AfterComma(s.text, p), ArrayTo(items, j))
  }

  /** The items from j on are written from p on and end at e, and each of them can be read. */
  ghost predicate ItemsLeft(t: string, p: nat, items: seq<Doc>, j: nat, e: nat) {
    && p <= |t| && j <= |items| && ItemsEnd(t, p, items, j) == Some(e)
    && forall k {:trigger items[k]} :: 0 <= k < |items| ==> Readable(items[k]) && WellFormed(items[k])
  }

  lemma {:induction false} WholeArrayReads(s: Input, p: nat, items: seq<Doc>, e: nat)
    requires items != [] && p <= |s.text| && ItemsEnd(s.text, p, items, 0) == Some(e)
    requires Readable(ArrDoc(items)) && WellFormed(ArrDoc(items))
    ensures Array(s, p, Null) == Ok(ValueOf(ArrDoc(items)), e)
    decreases items, |items| + 1
  {
    ArrayReads(s, p, items, 0, e);
    FirstItem(s.text, p, items, 0);
  }

  lemma {:induction false} ArrayReads(s: Input, p: nat, items: seq<Doc>, j: nat, e: nat)
    requires items != [] && ItemsLeft(s.text, p, items, j, e)
    ensures ArrayAt(s, p, items, j) == Ok(ArrayTo(items, |items|), e)
    decreases items, |items| - j, 3
  {
    if j == |items| {
      ArrayCloses(s, p, items, e);
    } else {
      var q := OneItemLess(s, p, items, j, e);
      ArrayReads(s, q, items, j + 1, e);
    }
  }

  lemma ArrayCloses(s: Input, p: nat, items: seq<Doc>, e: nat)
    requires items != [] && p <= |s.text| && ItemsEnd(s.text, p, items, |items|) == Some(e)
    ensures ArrayAt(s, p, items, |items|) == Ok(ArrayTo(items, |items|), e)
  {
  }

  lemma {:induction false} OneItemLess(s: Input, p: nat, items: seq<Doc>, j: nat, e: nat) returns (q: nat)
    requires j < |items| && ItemsLeft(s.text, p, items, j, e)
    ensures ItemsLeft(s.text, q, items, j + 1, e)
    ensures ArrayAt(s, p, items, j) == ArrayAt(s, q, items, j + 1)
    decreases items, |items| - j, 2
  {
    q := AfterItem(s.text, p, items, j);
    ItemReads(s, p, items, j);
  }

  /** The separator behind item j. */
  ghost function AfterItem(t: string, p: nat, items: seq<Doc>, j: nat): (r: nat)
    requires p <= |t| && j < |items| && ItemsEnd(t, p, items, j).Some?
    ensures p < r < |t| && ItemsEnd(t, r, items, j + 1) == ItemsEnd(t, p, items, j)
    ensures t[r] == ',' || t[r] == ']'
  {
    SkipBlanks(t, Laid(t, SkipBlanks(t, PastComma(p, j)), items[j]).value)
  }

  lemma FirstItem(t: string, p: nat, items: seq<Doc>, j: nat)
    requires p <= |t| && j < |items| && ItemsEnd(t, p, items, j).Some?
    ensures AfterComma(t, p) == PastComma(p, j)
    ensures PastComma(p, j) < |t| && t[PastComma(p, j)] != ']'
  {
    LaidStarts(t, SkipBlanks(t, PastComma(p, j)), items[j]);
  }

  lemma ItemStart(s: Input, p: nat, items: seq<Doc>, j: nat)
    requires p <= |s.text| && j < |items| && ItemsEnd(s.text, p, items, j).Some?
    ensures PastComma(p, j) <= |s.text|
    ensures Value(s, PastComma(p, j)) == Value(s, SkipBlanks(s.text, PastComma(p, j)))
  {
    BlanksBeforeValue(s.text, PastComma(p, j));
    SameHead(s, PastComma(p, j), SkipBlanks(s.text, PastComma(p, j)));
  }

  lemma {:induction false} ItemValueAt(s: Input, p: nat, items: seq<Doc>, j: nat)
    requires p <= |s.text| && j < |items| && ItemsEnd(s.text, p, items, j).Some?
    requires Readable(items[j]) && WellFormed(items[j])
    ensures PastComma(p, j) <= |s.text|
    ensures Value(s, PastComma(p, j)) == Ok(ValueOf(items[j]), AfterItem(s.text, p, items, j))
    decreases items, |items| - j, 0
  {
    var i := SkipBlanks(s.text, PastComma(p, j));
    ItemStart(s, p, items, j);
    ValueReads(s, i, items[j], Laid(s.text, i, items[j]).value);
  }

  lemma {:induction false} ItemReads(s: Input, p: nat, items: seq<Doc>, j: nat)
    requires p <= |s.text| && j < |items| && ItemsEnd(s.text, p, items, j).Some?
    requires Readable(items[j]) && WellFormed(items[j])
    ensures ArrayAt(s, p, items, j) == ArrayAt(s, AfterItem(s.text, p, items, j), items, j + 1)
    decreases items, |items| - j, 1
  {
    FirstItem(s.text, p, items, j);
    ItemValueAt(s, p, items, j);
    OneItem(s, PastComma(p, j), ArrayTo(items, j), ValueOf(items[j]), AfterItem(s.text, p, items, j));
  }

  lemma {:induction false} NoNull(key: string, i: nat)
    requires i <= |key| && KeyClean(key)
    ensures NullEnd(key, i) == |key|
    decreases |key| - i
  {
    if i < |key| { NoNull(key, i + 1); }
  }

  /** The two quotes of a quoted key are found. */
  lemma KeyFound(t: string, i: nat, key: string)
    requires At(t, i, Quoted(key)) && KeyClean(key)
    ensures i + |key| + 2 <= |t| && t[i] == '"' && Key(t, i) == Some((key, i + |key| + 2))
  {
    QuotedParts(t, i, key);
    AtParts(t, i + 1, key, "\"");
    AtSlice(t, i + 1, key);
    AtChar(t, i + 1 + |key|, "\"", 0);
    forall j | i + 1 <= j < i + 1 + |key|
      ensures t[j] != '"'
    {
      AtChar(t, i + 1, key, j - i - 1);
    }
    QuoteFound(t, i + 1, i + 1 + |key|);
  }

  lemma KeyRead(t: string, i: nat, key: string)
    requires At(t, i, Quoted(key)) && KeyClean(key) && key != "}"
    ensures ObjectHead(t, i) == Field(key, i + |key| + 2) && CString(key) == key
  {
    NoNull(key, 0);
    KeyFound(t, i, key);
  }

  function ObjectTo(entries: seq<Entry>, j: nat): Json
    requires j <= |entries|
  {
    if j == 0 then Null else Obj(FieldsTo(entries, j))
  }

  /** The object loop with the entries before j read, at the text that is still to be read. */
  function ObjectAt(s: Input, p: nat, entries: seq<Entry>, j: nat): Parsed
    requires p <= |s.text| && j <= |entries|
  {
    Object(s, AfterComma(s.text, p), ObjectTo(entries, j))
  }

  /** The entries from j on are written from p on and end at e, and each of them can be read. */
  ghost predicate EntriesLeft(t: string, p: nat, entries: seq<Entry>, j: nat, e: nat) {
    && p <= |t| && j <= |entries| && EntriesEnd(t, p, entries, j) == Some(e)
    && forall k {:trigger entries[k]} :: 0 <= k < |entries| ==> EntryReadable(entries[k]) && WellFormed(entries[k].value)
  }

  lemma {:induction false} WholeObjectReads(s: Input, p: nat, entries: seq<Entry>, e: nat)
    requires entries != [] && p <= |s.text| && EntriesEnd(s.text, p, entries, 0) == Some(e)
    requires Readable(ObjDoc(entries)) && WellFormed(ObjDoc(entries))
    ensures Object(s, p, Null) == Ok(ValueOf(ObjDoc(entries)), e)
    decreases entries, |entries| + 1
  {
    ObjectReads(s, p, entries, 0, e);
    FirstEntry(s.text, p, entries, 0);
  }

  lemma {:induction false} ObjectReads(s: Input, p: nat, entries: seq<Entry>, j: nat, e: nat)
    requires entries != [] && EntriesLeft(s.text, p, entries, j, e)
    ensures ObjectAt(s, p, entries, j) == Ok(ObjectTo(entries, |entries|), e)
    decreases entries, |entries| - j, 3
  {
    if j == |entries| {
      ObjectCloses(s, p, entries, e);
    } else {
      var q := OneEntryLess(s, p, entries, j, e);
      ObjectReads(s, q, entries, j + 1, e);
    }
  }

  lemma {:induction false} OneEntryLess(s: Input, p: nat, entries: seq<Entry>, j: nat, e: nat) returns (q: nat)
    requires j < |entries| && EntriesLeft(s.text, p, entries, j, e)
    ensures EntriesLeft(s.text, q, entries, j + 1, e)
    ensures ObjectAt(s, p, entries, j) == ObjectAt(s, q, entries, j + 1)
    decreases entries, |entries| - j, 2
  {
    q := AfterEntry(s.text, p, entries, j);
    EntryReads(s, p, entries, j);
  }

  lemma ObjectCloses(s: Input, p: nat, entries: seq<Entry>, e: nat)
    requires entries != [] && p <= |s.text| && EntriesEnd(s.text, p, entries, |entries|) == Some(e)
    ensures ObjectAt(s, p, entries, |entries|) == Ok(ObjectTo(entries, |entries|), e)
  {
    assert ObjectHead(s.text, p) == End(p + 1);
  }

  /** The separator behind entry j. */
  ghost function AfterEntry(t: string, p: nat, entries: seq<Entry>, j: nat): (r: nat)
    requires p <= |t| && j < |entries| && EntriesEnd(t, p, entries, j).Some?
    ensures p < r < |t| && EntriesEnd(t, r, entries, j + 1) == EntriesEnd(t, p, entries, j)
    ensures t[r] == ',' || t[r] == '}'
  {
    SkipBlanks(t, EntryEnd(t, SkipBlanks(t, PastComma(p, j)), entries[j]).value)
  }

  lemma FirstEntry(t: string, p: nat, entries: seq<Entry>, j: nat)
    requires p <= |t| && j < |entries| && EntriesEnd(t, p, entries, j).Some?
    ensures AfterComma(t, p) == PastComma(p, j)
  {
    var i := SkipBlanks(t, PastComma(p, j));
    AtChar(t, i, Quoted(entries[j].key), 0);
  }

  /** The head of an entry that is written behind blanks. */
  lemma HeadRead(t: string, a: nat, e: Entry)
    requires a <= |t| && EntryEnd(t, SkipBlanks(t, a), e).Some? && KeyClean(e.key) && e.key != "}"
    ensures ObjectHead(t, a) == Field(e.key, KeyEnd(t, SkipBlanks(t, a), e)) && CString(e.key) == e.key
  {
    KeyRead(t, SkipBlanks(t, a), e.key);
    BlanksBeforeKey(t, a);
    SameKey(t, a, SkipBlanks(t, a));
  }

  lemma EntryHead(t: string, p: nat, entries: seq<Entry>, j: nat)
    requires p <= |t| && j < |entries| && EntriesEnd(t, p, entries, j).Some?
    requires KeyClean(entries[j].key) && entries[j].key != "}"
    ensures AfterComma(t, p) == PastComma(p, j) && CString(entries[j].key) == entries[j].key
    ensures ObjectHead(t, PastComma(p, j)) ==
      Field(entries[j].key, KeyEnd(t, SkipBlanks(t, PastComma(p, j)), entries[j]))
  {
    FirstEntry(t, p, entries, j);
    HeadRead(t, PastComma(p, j), entries[j]);
  }

  lemma EntryWritten(t: string, p: nat, entries: seq<Entry>, j: nat) returns (i: nat, end: nat)
    requires p <= |t| && j < |entries| && EntriesEnd(t, p, entries, j).Some?
    ensures i <= |t| && i == SkipBlanks(t, PastComma(p, j))
    ensures EntryEnd(t, i, entries[j]) == Some(end) && SeparatorFollows(t, end)
    ensures AfterEntry(t, p, entries, j) == SkipBlanks(t, end)
  {
    i := SkipBlanks(t, PastComma(p, j));
    end := EntryEnd(t, i, entries[j]).value;
  }

  /** What follows the key of entry j gives its value. */
  lemma {:induction false} EntryValue(s: Input, p: nat, entries: seq<Entry>, j: nat)
    requires p <= |s.text| && j < |entries| && EntriesEnd(s.text, p, entries, j).Some?
    requires EntryReadable(entries[j]) && WellFormed(entries[j].value)
    ensures Value(s, KeyEnd(s.text, SkipBlanks(s.text, PastComma(p, j)), entries[j]))
      == Ok(ValueOf(entries[j].value), AfterEntry(s.text, p, entries, j))
    decreases entries, |entries| - j, 0
  {
    var i, end := EntryWritten(s.text, p, entries, j);
    EntryValueReads(s, i, entries[j], end);
  }

  /** One round of the object loop. */
  lemma EntryRound(s: Input, p: nat, entries: seq<Entry>, j: nat, v: Json, q: nat)
    requires p <= |s.text| && j < |entries| && EntriesEnd(s.text, p, entries, j).Some?
    requires KeyClean(entries[j].key) && entries[j].key != "}"
    requires Value(s, KeyEnd(s.text, SkipBlanks(s.text, PastComma(p, j)), entries[j])) == Ok(v, q)
    ensures ObjectAt(s, p, entries, j) == Object(s, AfterComma(s.text, q), Put(ObjectTo(entries, j), entries[j].key, v))
  {
    EntryHead(s.text, p, entries, j);
    OneField(s, PastComma(p, j), ObjectTo(entries, j), v, q);
  }

  lemma {:induction false} EntryReads(s: Input, p: nat, entries: seq<Entry>, j: nat)
    requires p <= |s.text| && j < |entries| && EntriesEnd(s.text, p, entries, j).Some?
    requires EntryReadable(entries[j]) && WellFormed(entries[j].value)
    ensures ObjectAt(s, p, entries, j) == ObjectAt(s, AfterEntry(s.text, p, entries, j), entries, j + 1)
    decreases entries, |entries| - j, 1
  {
    EntryValue(s, p, entries, j);
    EntryRound(s, p, entries, j, ValueOf(entries[j].value), AfterEntry(s.text, p, entries, j));
    PutNext(entries, j);
  }

  lemma PutNext(entries: seq<Entry>, j: nat)
    requires j < |entries|
    ensures Put(ObjectTo(entries, j), entries[j].key, ValueOf(entries[j].value)) == ObjectTo(entries, j + 1)
  {
    if j == 0 { assert FieldsTo(entries, 0) == map[]; }
  }

  /** Where the key of an entry ends. */
  ghost function KeyEnd(t: string, i: nat, e: Entry): (r: nat)
    requires i <= |t| && EntryEnd(t, i, e).Some?
    ensures i < r <= |t|
  {
    i + |e.key| + 2
  }

  /** Where the value of an entry is written. */
  ghost function ValueStart(t: string, i: nat, e: Entry): (r: nat)
    requires i <= |t| && EntryEnd(t, i, e).Some?
    ensures r <= |t| && Laid(t, r, e.value) == EntryEnd(t, i, e)
  {
    SkipBlanks(t, SkipBlanks(t, KeyEnd(t, i, e)) + 1)
  }

  lemma ColonRead(s: Input, a: nat, b: nat)
    requires a <= |s.text| && SkipBlanks(s.text, a) < |s.text| && s.text[SkipBlanks(s.text, a)] == ':'
    requires b == SkipBlanks(s.text, SkipBlanks(s.text, a) + 1)
    ensures Value(s, a) == Value(s, b)
  {
    ColonBetween(s.text, a);
    SameHead(s, a, b);
  }

  /** What stands behind the key of an entry is read like what stands behind its colon. */
  lemma ColonSkipped(s: Input, i: nat, e: Entry)
    requires i <= |s.text| && EntryEnd(s.text, i, e).Some?
    ensures Value(s, KeyEnd(s.text, i, e)) == Value(s, ValueStart(s.text, i, e))
  {
    ColonRead(s, KeyEnd(s.text, i, e), ValueStart(s.text, i, e));
  }

  /** What follows the key of an entry gives its value. */
  lemma {:induction false} EntryValueReads(s: Input, i: nat, e: Entry, end: nat)
    requires Readable(e.value) && WellFormed(e.value) && i <= |s.text|
    requires EntryEnd(s.text, i, e) == Some(end) && SeparatorFollows(s.text, end)
    ensures Value(s, KeyEnd(s.text, i, e)) == Ok(ValueOf(e.value), SkipBlanks(s.text, end))
    decreases e, 0
  {
    ColonSkipped(s, i, e);
    ValueReads(s, ValueStart(s.text, i, e), e.value, end);
  }

  /** Parsing text in which an array or object is written, with blanks between its tokens and anything around it, gives its value. */
  lemma WrittenRoundTrip(s: Input, i: nat, d: Doc)
    requires WellFormed(d) && Readable(d) && IsContainer(d) && i <= |s.text| && Laid(s.text, i, d).Some?
    requires forall j :: 0 <= j < i ==> s.text[j] != '{' && s.text[j] != '['
    ensures Parse(s) == Returns(ValueOf(d))
  {
    ContainerReads(s, i, d, Laid(s.text, i, d).value);
    BracketFound(s.text, 0, i);
  }

  /** Parsing a printed array or object gives back its value. */
  lemma RoundTrip(s: Input, d: Doc)
    requires s.text == Print(d) && WellFormed(d) && Readable(d) && IsContainer(d)
    ensures Parse(s) == Returns(ValueOf(d))
  {
    AtSlice(s.text, 0, Print(d));
    PrintLaid(s.text, 0, d);
    WrittenRoundTrip(s, 0, d);
  }
}
