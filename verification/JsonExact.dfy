/**
  Exactly which printed documents come back as the value they print. One direction bounds what the parser can
  produce; the case of a key that is a lone brace is settled by counting quotes: a key or a string in the result
  costs its quotes in the text, and such a key spends two quotes on nothing.
 */
module JsonExact {
  import opened Wrappers
  import opened JsonText
  import opened JsonDocs
  import opened JsonRoundTrip

  // ---------------------------------------------------------------- what the parser can produce

  predicate Produced(v: Json) {
    match v
    case Int(i) => IsInt64(i)
    case Str(s) => Balanced(s, 0, false)
    case Arr(items) => items != [] && forall i {:trigger items[i]} :: 0 <= i < |items| ==> Produced(items[i])
    case Obj(fields) => fields != map[] && forall k :: k in fields ==> KeyClean(k) && Produced(fields[k])
    case _ => true
  }

  /** A container under construction: null until it has an element. */
  predicate Building(v: Json) {
    (v.Null? || v.Arr? || v.Obj?) && Produced(v)
  }

  lemma {:induction false} StringEndBalanced(t: string, i: nat, j: nat, escaped: bool, e: nat)
    requires i <= j <= e < |t| && StringEnd(t, j, escaped) == e
    ensures Balanced(t[i..e], j - i, escaped)
    decreases e - j
  {
    if j < e {
      StringEndBalanced(t, i, j + 1, !escaped && t[j] == '\\', e);
    }
  }

  lemma KeyIsClean(t: string, i: nat)
    requires i <= |t| && ObjectHead(t, i).Field?
    ensures KeyClean(CString(ObjectHead(t, i).key))
  {
    var key := ObjectHead(t, i).key;
    var from := SkipToKey(t, i) + 1;
    assert key == t[from..from + |key|];
    assert forall j :: 0 <= j < |key| ==> key[j] == t[from + j];
  }

  lemma ScalarProduced(s: Input, i: nat)
    requires i < |s.text| && StartsValue(s.text, i) && s.text[i] != '{' && s.text[i] != '['
    ensures Scalar(s, i).Ok? ==> Produced(Scalar(s, i).value)
  {
    if s.text[i] == '"' {
      var e := StringEnd(s.text, i + 1, false);
      if e < |s.text| { StringEndBalanced(s.text, i + 1, i + 1, false, e); }
    }
  }

  lemma {:induction false} ValueProduced(s: Input, i: nat)
    requires i <= |s.text|
    ensures Value(s, i).Ok? ==> Produced(Value(s, i).value)
    decreases |s.text| - i, 1
  {
    var head := ValueHead(s, i);
    if head.Opening? {
      OpenedProduced(s, head.at);
    } else if head.Single? {
      ScalarProduced(s, SkipToValue(s.text, i));
    }
  }

  lemma {:induction false} OpenedProduced(s: Input, i: nat)
    requires i < |s.text| && (s.text[i] == '{' || s.text[i] == '[')
    ensures Opened(s, i).Ok? ==> Building(Opened(s, i).value)
    decreases |s.text| - i, 0
  {
    if s.text[i] == '{' {
      ObjectProduced(s, i + 1, Null);
    } else {
      ArrayProduced(s, i + 1, Null);
    }
  }

  lemma {:induction false} ObjectProduced(s: Input, i: nat, acc: Json)
    requires i <= |s.text| && Building(acc) && !acc.Arr?
    ensures Object(s, i, acc).Ok? ==> Building(Object(s, i, acc).value)
    decreases |s.text| - i, 2
  {
    var head := ObjectHead(s.text, i);
    if head.Field? {
      KeyIsClean(s.text, i);
      ValueProduced(s, head.next);
      match Value(s, head.next) {
        case Ok(v, q) =>
          PutProduced(acc, CString(head.key), v);
          ObjectProduced(s, AfterComma(s.text, q), Put(acc, CString(head.key), v));
        case _ =>
      }
    }
  }

  lemma PutProduced(acc: Json, key: string, v: Json)
    requires Building(acc) && KeyClean(key) && Produced(v)
    ensures Building(Put(acc, key, v))
  {
    assert key in Put(acc, key, v).fields;
  }

  lemma {:induction false} ArrayProduced(s: Input, i: nat, acc: Json)
    requires i <= |s.text| && Building(acc) && !acc.Obj?
    ensures Array(s, i, acc).Ok? ==> Building(Array(s, i, acc).value)
    decreases |s.text| - i, 2
  {
    if i < |s.text| && s.text[i] != ']' {
      ValueProduced(s, i);
      match Value(s, i) {
        case Ok(v, q) =>
          PushProduced(acc, v);
          if s.text[q] != '}' { ArrayProduced(s, AfterComma(s.text, q), Push(acc, v)); }
        case _ =>
      }
    }
  }

  lemma PushProduced(acc: Json, v: Json)
    requires Building(acc) && Produced(v)
    ensures Building(Push(acc, v))
  {
  }

  /** A parsed value is null or a non-empty container, and the parser could have read all its parts. */
  lemma ParseProduces(s: Input)
    ensures Parse(s).Returns? ==> Building(Parse(s).value)
  {
    var start := SkipToBracket(s.text, 0);
    if start < |s.text| { OpenedProduced(s, start); }
  }

  lemma {:induction false} ProducedIsTidy(d: Doc)
    requires WellFormed(d) && Produced(ValueOf(d))
    ensures Tidy(d)
  {
    match d
    case ArrDoc(items) =>
      forall i {:trigger items[i]} | 0 <= i < |items|
        ensures Tidy(items[i])
      {
        ValuesToAt(items, |items|, i);
        ProducedIsTidy(items[i]);
      }
    case ObjDoc(entries) =>
      assert FieldsTo(entries, 0) == map[];
      forall i {:trigger entries[i]} | 0 <= i < |entries|
        ensures KeyClean(entries[i].key) && Tidy(entries[i].value)
      {
        FieldOf(entries, |entries|, i);
        ProducedIsTidy(entries[i].value);
      }
    case _ =>
  }

  // ---------------------------------------------------------------- quotes in a text and quotes a value costs

  /** The number of quotes from i up to e. */
  function QuotesIn(t: string, i: nat, e: nat): nat
    requires i <= e <= |t|
    decreases e - i
  {
    if i == e then 0 else QuotesIn(t, i, e - 1) + (if t[e - 1] == '"' then 1 else 0)
  }

  lemma {:induction false} QuotesAdd(t: string, i: nat, m: nat, e: nat)
    requires i <= m <= e <= |t|
    ensures QuotesIn(t, i, e) == QuotesIn(t, i, m) + QuotesIn(t, m, e)
    decreases e - m
  {
    if m < e { QuotesAdd(t, i, m, e - 1); }
  }

  lemma {:induction false} QuotesSlice(t: string, i: nat, e: nat)
    requires i <= e <= |t|
    ensures QuotesIn(t[i..e], 0, e - i) == QuotesIn(t, i, e)
    decreases e - i
  {
    if i < e {
      QuotesSlice(t, i, e - 1);
      assert t[i..e][..e - 1 - i] == t[i..e - 1] == t[i..e - 1][..e - 1 - i];
      QuotesPrefix(t[i..e], t[i..e - 1], e - 1 - i);
    }
  }

  lemma {:induction false} QuotesPrefix(a: string, b: string, n: nat)
    requires n <= |a| && n <= |b| && a[..n] == b[..n]
    ensures QuotesIn(a, 0, n) == QuotesIn(b, 0, n)
  {
    if n > 0 {
      assert a[..n - 1] == a[..n][..n - 1] == b[..n - 1];
      assert a[..n][n - 1] == b[..n][n - 1];
      QuotesPrefix(a, b, n - 1);
    }
  }

  function QuoteCount(s: string): nat {
    QuotesIn(s, 0, |s|)
  }

  lemma QuoteCountAdd(a: string, b: string)
    ensures QuoteCount(a + b) == QuoteCount(a) + QuoteCount(b)
  {
    QuotesAdd(a + b, 0, |a|, |a + b|);
    QuotesSlice(a + b, 0, |a|);
    QuotesSlice(a + b, |a|, |a + b|);
    assert (a + b)[0..|a|] == a && (a + b)[|a|..|a + b|] == b;
  }

  /** The quotes that any text of the value contains: two for a key or a string, and those inside strings. */
  ghost function Cost(v: Json): nat
    decreases v, 1, 0
  {
    match v
    case Str(s) => QuoteCount(s) + 2
    case Arr(items) => ItemsCost(items, |items|)
    case Obj(fields) => FieldsCost(v, fields.Keys)
    case _ => 0
  }

  ghost function ItemsCost(items: seq<Json>, n: nat): nat
    requires n <= |items|
    decreases items, n
  {
    if n == 0 then 0 else ItemsCost(items, n - 1) + Cost(items[n - 1])
  }

  ghost function FieldsCost(v: Json, keys: set<string>): nat
    requires v.Obj? && keys <= v.fields.Keys
    decreases v, 0, |keys|
  {
    if keys == {} then 0
    else
      var k :| k in keys;
      2 + Cost(v.fields[k]) + FieldsCost(v, keys - {k})
  }

  lemma {:induction false} FieldsCostPick(v: Json, keys: set<string>, k: string)
    requires v.Obj? && keys <= v.fields.Keys && k in keys
    ensures FieldsCost(v, keys) == 2 + Cost(v.fields[k]) + FieldsCost(v, keys - {k})
    decreases |keys|
  {
    var c :| c in keys && FieldsCost(v, keys) == 2 + Cost(v.fields[c]) + FieldsCost(v, keys - {c});
    if c != k {
      FieldsCostPick(v, keys - {c}, k);
      FieldsCostPick(v, keys - {k}, c);
      assert keys - {c} - {k} == keys - {k} - {c};
    }
  }

  lemma {:induction false} FieldsCostSame(v: Json, w: Json, keys: set<string>)
    requires v.Obj? && w.Obj? && keys <= v.fields.Keys && keys <= w.fields.Keys
    requires forall k :: k in keys ==> v.fields[k] == w.fields[k]
    ensures FieldsCost(v, keys) == FieldsCost(w, keys)
    decreases |keys|
  {
    if keys != {} {
      var k :| k in keys;
      FieldsCostPick(v, keys, k);
      FieldsCostPick(w, keys, k);
      FieldsCostSame(v, w, keys - {k});
    }
  }

  /** Assigning a field costs its key and value, and frees what it overwrites. */
  lemma PutCost(acc: Json, key: string, v: Json)
    requires acc.Null? || acc.Obj?
    ensures Cost(Put(acc, key, v)) <= Cost(acc) + 2 + Cost(v)
    ensures acc.Null? || key !in acc.fields ==> Cost(Put(acc, key, v)) == Cost(acc) + 2 + Cost(v)
  {
    var before := if acc.Obj? then acc else Obj(map[]);
    var after := Put(acc, key, v);
    var others := before.fields.Keys - {key};
    assert after.fields.Keys - {key} == others;
    FieldsCostPick(after, after.fields.Keys, key);
    FieldsCostSame(before, after, others);
    if key in before.fields {
      FieldsCostPick(before, before.fields.Keys, key);
    } else {
      assert others == before.fields.Keys;
    }
  }

  lemma {:induction false} ItemsCostSame(a: seq<Json>, b: seq<Json>, n: nat)
    requires n <= |a| && n <= |b| && forall i :: 0 <= i < n ==> a[i] == b[i]
    ensures ItemsCost(a, n) == ItemsCost(b, n)
  {
    if n > 0 { ItemsCostSame(a, b, n - 1); }
  }

  lemma PushCost(acc: Json, v: Json)
    requires acc.Null? || acc.Arr?
    ensures Cost(Push(acc, v)) == Cost(acc) + Cost(v)
  {
    var before := if acc.Arr? then acc.items else [];
    ItemsCostSame(before, before + [v], |before|);
  }

  // ---------------------------------------------------------------- reading costs quotes

  lemma QuoteAt(t: string, i: nat, at: nat, e: nat)
    requires i <= at < e <= |t| && t[at] == '"'
    ensures QuotesIn(t, i, e) == QuotesIn(t, i, at) + 1 + QuotesIn(t, at + 1, e)
  {
    QuotesAdd(t, i, at, e);
    QuotesAdd(t, at, at + 1, e);
    assert QuotesIn(t, at, at + 1) == 1;
  }

  /** A key token has two quotes, also when it is a lone brace. */
  lemma KeyQuotes(t: string, i: nat)
    requires i <= |t| && SkipToKey(t, i) < |t| && t[SkipToKey(t, i)] == '"' && Key(t, i).Some?
    ensures QuotesIn(t, i, Key(t, i).value.1) >= 2
  {
    var start := SkipToKey(t, i);
    var end := SkipToQuote(t, start + 1);
    QuoteAt(t, i, start, end + 1);
    QuoteAt(t, start + 1, end, end + 1);
  }

  lemma ScalarCost(s: Input, i: nat)
    requires i < |s.text| && StartsValue(s.text, i) && s.text[i] != '{' && s.text[i] != '['
    ensures Scalar(s, i).Ok? ==> Cost(Scalar(s, i).value) <= QuotesIn(s.text, i, Scalar(s, i).next)
  {
    var t := s.text;
    if t[i] == '"' {
      var e := StringEnd(t, i + 1, false);
      if e < |t| {
        QuotesSlice(t, i + 1, e);
        QuoteAt(t, i, i, e + 1);
        QuoteAt(t, i + 1, e, e + 1);
      }
    }
  }

  lemma {:induction false} ValueCost(s: Input, i: nat)
    requires i <= |s.text|
    ensures Value(s, i).Ok? ==> Cost(Value(s, i).value) <= QuotesIn(s.text, i, Value(s, i).next)
    decreases |s.text| - i, 1
  {
    var head := ValueHead(s, i);
    var r := Value(s, i);
    if r.Ok? && head.Opening? {
      OpenedCost(s, head.at);
      var next := Opened(s, head.at).next;
      QuotesAdd(s.text, i, head.at, r.next);
      QuotesAdd(s.text, head.at, next, r.next);
    } else if r.Ok? && head.Single? {
      var start := SkipToValue(s.text, i);
      ScalarCost(s, start);
      QuotesAdd(s.text, i, start, r.next);
      QuotesAdd(s.text, start, head.result.next, r.next);
    }
  }

  lemma {:induction false} OpenedCost(s: Input, i: nat)
    requires i < |s.text| && (s.text[i] == '{' || s.text[i] == '[')
    ensures Opened(s, i).Ok? ==> Cost(Opened(s, i).value) <= QuotesIn(s.text, i, Opened(s, i).next)
    decreases |s.text| - i, 0
  {
    var r := Opened(s, i);
    if s.text[i] == '{' {
      ObjectCost(s, i + 1, Null);
    } else {
      ArrayCost(s, i + 1, Null);
    }
    if r.Ok? { QuotesAdd(s.text, i, i + 1, r.next); }
  }

  /** What the object loop adds to its result costs quotes it has passed. */
  lemma {:induction false} ObjectCost(s: Input, i: nat, acc: Json)
    requires i <= |s.text| && (acc.Null? || acc.Obj?)
    ensures var r := Object(s, i, acc);
      r.Ok? ==> !r.value.Arr? && Cost(r.value) <= Cost(acc) + QuotesIn(s.text, i, r.next)
    decreases |s.text| - i, 2
  {
    var t, r, head := s.text, Object(s, i, acc), ObjectHead(s.text, i);
    if head.Field? && r.Ok? {
      var v, q := Value(s, head.next).value, Value(s, head.next).next;
      var p := AfterComma(t, q);
      KeyQuotes(t, i);
      ValueCost(s, head.next);
      PutCost(acc, CString(head.key), v);
      ObjectCost(s, p, Put(acc, CString(head.key), v));
      QuotesAdd(t, i, head.next, r.next);
      QuotesAdd(t, head.next, q, r.next);
      QuotesAdd(t, q, p, r.next);
    }
  }

  /** What the array loop adds to its result costs quotes it has passed. */
  lemma {:induction false} ArrayCost(s: Input, i: nat, acc: Json)
    requires i <= |s.text| && (acc.Null? || acc.Arr?)
    ensures var r := Array(s, i, acc);
      r.Ok? ==> !r.value.Obj? && Cost(r.value) <= Cost(acc) + QuotesIn(s.text, i, r.next)
    decreases |s.text| - i, 2
  {
    var t, r := s.text, Array(s, i, acc);
    if i < |t| && t[i] != ']' && r.Ok? {
      var v, q := Value(s, i).value, Value(s, i).next;
      var p := AfterComma(t, q);
      ValueCost(s, i);
      PushCost(acc, v);
      ArrayCost(s, p, Push(acc, v));
      QuotesAdd(t, i, q, r.next);
      QuotesAdd(t, q, p, r.next);
    }
  }

  // ---------------------------------------------------------------- a lone brace as a key wastes two quotes

  /** What is left of the quotes from i on, and of those spent before, after a result and two more quotes are paid for. */
  ghost function Slack(r: Parsed, t: string, i: nat, before: nat): int {
    if !r.Ok? then 0
    else if i <= r.next <= |t| then before + QuotesIn(t, i, r.next) - Cost(r.value) - 2
    else -1
  }

  /** The result is two quotes short of what the text from i on could pay for. */
  ghost predicate Short(r: Parsed, t: string, i: nat, before: nat) {
    Slack(r, t, i, before) >= 0
  }

  lemma {:induction false} ValueWastes(s: Input, i: nat, d: Doc)
    requires i <= |s.text| && Laid(s.text, i, d).Some? && Tidy(d) && WellFormed(d) && !Readable(d)
    ensures Short(Value(s, i), s.text, i, 0)
    decreases d, 2
  {
    var r, o := Value(s, i), Opened(s, i);
    ContainerWastes(s, i, d);
    assert ValueHead(s, i) == Opening(i);
    if r.Ok? { QuotesAdd(s.text, i, o.next, r.next); }
  }

  lemma {:induction false} ContainerWastes(s: Input, i: nat, d: Doc)
    requires i <= |s.text| && Laid(s.text, i, d).Some? && Tidy(d) && WellFormed(d) && !Readable(d)
    ensures i < |s.text| && (s.text[i] == '{' || s.text[i] == '[')
    ensures Short(Opened(s, i), s.text, i, 0)
    decreases d, 1
  {
    match d {
      case ArrDoc(items) =>
        WholeArrayWastes(s, i + 1, items);
      case ObjDoc(entries) =>
        WholeObjectWastes(s, i + 1, entries);
    }
    if Opened(s, i).Ok? { QuotesAdd(s.text, i, i + 1, Opened(s, i).next); }
  }

  lemma {:induction false} WholeArrayWastes(s: Input, p: nat, items: seq<Doc>)
    requires p <= |s.text| && ItemsEnd(s.text, p, items, 0).Some?
    requires Tidy(ArrDoc(items)) && WellFormed(ArrDoc(items)) && !Readable(ArrDoc(items))
    ensures Short(Array(s, p, Null), s.text, p, 0)
    decreases items, |items| + 1
  {
    var k :| 0 <= k < |items| && !Readable(items[k]);
    ArrayWastes(s, p, items, 0, k);
    FirstItem(s.text, p, items, 0);
  }

  predicate ItemTidy(d: Doc) {
    Tidy(d) && WellFormed(d)
  }

  predicate ItemsTidy(items: seq<Doc>) {
    forall i {:trigger items[i]} :: 0 <= i < |items| ==> ItemTidy(items[i])
  }

  predicate EntryTidy(e: Entry) {
    KeyClean(e.key) && Tidy(e.value) && WellFormed(e.value)
  }

  predicate EntriesTidy(entries: seq<Entry>) {
    forall i {:trigger entries[i]} :: 0 <= i < |entries| ==> EntryTidy(entries[i])
  }

  lemma {:induction false} WholeObjectWastes(s: Input, p: nat, entries: seq<Entry>)
    requires p <= |s.text| && EntriesEnd(s.text, p, entries, 0).Some?
    requires Tidy(ObjDoc(entries)) && WellFormed(ObjDoc(entries)) && !Readable(ObjDoc(entries))
    ensures Short(Object(s, p, Null), s.text, p, 0)
    decreases entries, |entries| + 1
  {
    var k :| 0 <= k < |entries| && !EntryReadable(entries[k]);
    ObjectWastes(s, p, entries, 0, k);
    FirstEntry(s.text, p, entries, 0);
  }

  /** How many quotes the rest of an array, or of an object, is short of, when its first j parts have been read. */
  ghost function ArraySlack(s: Input, p: nat, items: seq<Doc>, j: nat): int
    requires p <= |s.text| && j <= |items|
  {
    Slack(ArrayAt(s, p, items, j), s.text, AfterComma(s.text, p), Cost(ArrayTo(items, j)))
  }

  ghost function ObjectSlack(s: Input, p: nat, entries: seq<Entry>, j: nat): int
    requires p <= |s.text| && j <= |entries|
  {
    Slack(ObjectAt(s, p, entries, j), s.text, AfterComma(s.text, p), Cost(ObjectTo(entries, j)))
  }

  lemma SplitQuotes(t: string, i: nat, q: nat, p: nat, e: nat)
    requires i <= q <= p <= e <= |t|
    ensures QuotesIn(t, i, e) >= QuotesIn(t, i, q) + QuotesIn(t, p, e)
  {
    QuotesAdd(t, i, q, e);
    QuotesAdd(t, q, p, e);
  }

  /** An item that comes out short leaves the array short. */
  lemma ShortItem(s: Input, i: nat, acc: Json)
    requires i < |s.text| && s.text[i] != ']' && (acc.Null? || acc.Arr?) && Short(Value(s, i), s.text, i, 0)
    ensures Short(Array(s, i, acc), s.text, i, Cost(acc))
  {
    var t, r := s.text, Array(s, i, acc);
    if r.Ok? {
      var v, q := Value(s, i).value, Value(s, i).next;
      PushCost(acc, v);
      ArrayCost(s, AfterComma(t, q), Push(acc, v));
      SplitQuotes(t, i, q, AfterComma(t, q), r.next);
    }
  }

  /** A value that comes out short leaves the object short. */
  lemma ShortField(s: Input, i: nat, acc: Json)
    requires i <= |s.text| && ObjectHead(s.text, i).Field? && (acc.Null? || acc.Obj?)
    requires var next := ObjectHead(s.text, i).next; Short(Value(s, next), s.text, next, 0)
    ensures Short(Object(s, i, acc), s.text, i, Cost(acc))
  {
    var t, r, head := s.text, Object(s, i, acc), ObjectHead(s.text, i);
    if r.Ok? {
      var v, q := Value(s, head.next).value, Value(s, head.next).next;
      KeyQuotes(t, i);
      PutCost(acc, CString(head.key), v);
      ObjectCost(s, AfterComma(t, q), Put(acc, CString(head.key), v));
      QuotesAdd(t, i, head.next, q);
      SplitQuotes(t, i, q, AfterComma(t, q), r.next);
    }
  }

  lemma {:induction false} ArrayWastes(s: Input, p: nat, items: seq<Doc>, j: nat, k: nat)
    requires j <= k < |items| && !Readable(items[k]) && ItemsTidy(items)
    requires p <= |s.text| && ItemsEnd(s.text, p, items, j).Some?
    ensures ArraySlack(s, p, items, j) >= 0
    decreases items, |items| - j, 2
  {
    assert ItemTidy(items[j]);
    if Readable(items[j]) {
      assert j != k;
      var q := ItemPasses(s, p, items, j);
      ArrayWastes(s, q, items, j + 1, k);
    } else {
      ItemEndsShort(s, p, items, j);
    }
  }

  lemma {:induction false} ItemEndsShort(s: Input, p: nat, items: seq<Doc>, j: nat)
    requires j < |items| && ItemTidy(items[j]) && !Readable(items[j])
    requires p <= |s.text| && ItemsEnd(s.text, p, items, j).Some?
    ensures ArraySlack(s, p, items, j) >= 0
    decreases items, |items| - j, 1
  {
    ItemWastes(s, p, items, j);
    FirstItem(s.text, p, items, j);
    ShortItem(s, PastComma(p, j), ArrayTo(items, j));
  }

  lemma {:induction false} ItemWastes(s: Input, p: nat, items: seq<Doc>, j: nat)
    requires j < |items| && Tidy(items[j]) && WellFormed(items[j]) && !Readable(items[j])
    requires p <= |s.text| && ItemsEnd(s.text, p, items, j).Some?
    ensures PastComma(p, j) <= |s.text| && Short(Value(s, PastComma(p, j)), s.text, PastComma(p, j), 0)
    decreases items, |items| - j, 0
  {
    var a := PastComma(p, j);
    ItemStart(s, p, items, j);
    ValueWastes(s, SkipBlanks(s.text, a), items[j]);
    if Value(s, a).Ok? { QuotesAdd(s.text, a, SkipBlanks(s.text, a), Value(s, a).next); }
  }

  /** A readable item costs no more than its quotes. */
  lemma ItemPays(s: Input, p: nat, items: seq<Doc>, j: nat)
    requires j < |items| && Readable(items[j]) && WellFormed(items[j])
    requires p <= |s.text| && ItemsEnd(s.text, p, items, j).Some?
    requires ArraySlack(s, AfterItem(s.text, p, items, j), items, j + 1) >= 0
    ensures ArraySlack(s, p, items, j) >= 0
  {
    var t, a, r := s.text, PastComma(p, j), ArrayAt(s, p, items, j);
    var q := AfterItem(t, p, items, j);
    FirstItem(t, p, items, j);
    ItemReads(s, p, items, j);
    ItemValueAt(s, p, items, j);
    ValueCost(s, a);
    PushCost(ArrayTo(items, j), ValueOf(items[j]));
    assert Push(ArrayTo(items, j), ValueOf(items[j])) == ArrayTo(items, j + 1);
    if r.Ok? { SplitQuotes(t, a, q, AfterComma(t, q), r.next); }
  }

  lemma ItemPasses(s: Input, p: nat, items: seq<Doc>, j: nat) returns (q: nat)
    requires j < |items| && Readable(items[j]) && WellFormed(items[j])
    requires p <= |s.text| && ItemsEnd(s.text, p, items, j).Some?
    ensures p < q <= |s.text| && ItemsEnd(s.text, q, items, j + 1).Some?
    ensures ArraySlack(s, q, items, j + 1) >= 0 ==> ArraySlack(s, p, items, j) >= 0
  {
    q := AfterItem(s.text, p, items, j);
    if ArraySlack(s, q, items, j + 1) >= 0 { ItemPays(s, p, items, j); }
  }

  lemma {:induction false} ObjectWastes(s: Input, p: nat, entries: seq<Entry>, j: nat, k: nat)
    requires j <= k < |entries| && !EntryReadable(entries[k]) && EntriesTidy(entries)
    requires p <= |s.text| && EntriesEnd(s.text, p, entries, j).Some?
    ensures ObjectSlack(s, p, entries, j) >= 0
    decreases entries, |entries| - j, 2
  {
    assert EntryTidy(entries[j]);
    if EntryReadable(entries[j]) {
      var q := EntryPasses(s, p, entries, j);
      ObjectWastes(s, q, entries, j + 1, k);
    } else {
      EntryWastes(s, p, entries, j);
    }
  }

  lemma {:induction false} EntryWastes(s: Input, p: nat, entries: seq<Entry>, j: nat)
    requires j < |entries| && EntryTidy(entries[j])
    requires !EntryReadable(entries[j]) && p <= |s.text| && EntriesEnd(s.text, p, entries, j).Some?
    ensures ObjectSlack(s, p, entries, j) >= 0
    decreases entries, |entries| - j, 1
  {
    if entries[j].key == "}" {
      BraceWastes(s, p, entries, j);
    } else {
      FieldWastes(s, p, entries, j);
      EntryHead(s.text, p, entries, j);
      ShortField(s, PastComma(p, j), ObjectTo(entries, j));
    }
  }

  /** A readable entry costs no more than its quotes. */
  lemma EntryPays(s: Input, p: nat, entries: seq<Entry>, j: nat)
    requires j < |entries| && EntryReadable(entries[j]) && EntryTidy(entries[j])
    requires p <= |s.text| && EntriesEnd(s.text, p, entries, j).Some?
    requires ObjectSlack(s, AfterEntry(s.text, p, entries, j), entries, j + 1) >= 0
    ensures ObjectSlack(s, p, entries, j) >= 0
  {
    var t, a, r := s.text, PastComma(p, j), ObjectAt(s, p, entries, j);
    var q := AfterEntry(t, p, entries, j);
    EntryReads(s, p, entries, j);
    FirstEntry(t, p, entries, j);
    EntryPaid(s, p, entries, j);
    if r.Ok? { SplitQuotes(t, a, q, AfterComma(t, q), r.next); }
  }

  lemma EntryPasses(s: Input, p: nat, entries: seq<Entry>, j: nat) returns (q: nat)
    requires j < |entries| && EntryReadable(entries[j]) && EntryTidy(entries[j])
    requires p <= |s.text| && EntriesEnd(s.text, p, entries, j).Some?
    ensures p < q <= |s.text| && EntriesEnd(s.text, q, entries, j + 1).Some?
    ensures ObjectSlack(s, q, entries, j + 1) >= 0 ==> ObjectSlack(s, p, entries, j) >= 0
  {
    q := AfterEntry(s.text, p, entries, j);
    if ObjectSlack(s, q, entries, j + 1) >= 0 { EntryPays(s, p, entries, j); }
  }

  lemma EntryPaid(s: Input, p: nat, entries: seq<Entry>, j: nat)
    requires j < |entries| && EntryReadable(entries[j]) && WellFormed(entries[j].value)
    requires p <= |s.text| && EntriesEnd(s.text, p, entries, j).Some?
    ensures PastComma(p, j) <= AfterEntry(s.text, p, entries, j)
    ensures Cost(ObjectTo(entries, j + 1)) <=
      Cost(ObjectTo(entries, j)) + QuotesIn(s.text, PastComma(p, j), AfterEntry(s.text, p, entries, j))
  {
    EntryHead(s.text, p, entries, j);
    EntryValue(s, p, entries, j);
    FieldPaid(s, PastComma(p, j));
    PutNext(entries, j);
    PutCost(ObjectTo(entries, j), entries[j].key, ValueOf(entries[j].value));
  }

  /** The quotes of a key and of what follows it pay for a field. */
  lemma FieldPaid(s: Input, i: nat)
    requires i <= |s.text| && ObjectHead(s.text, i).Field? && Value(s, ObjectHead(s.text, i).next).Ok?
    ensures var r := Value(s, ObjectHead(s.text, i).next);
      i <= r.next && 2 + Cost(r.value) <= QuotesIn(s.text, i, r.next)
  {
    var next := ObjectHead(s.text, i).next;
    KeyQuotes(s.text, i);
    ValueCost(s, next);
    QuotesAdd(s.text, i, next, Value(s, next).next);
  }

  /** At a key that is a lone brace the object ends, and the quotes of that key are spent. */
  lemma BraceWastes(s: Input, p: nat, entries: seq<Entry>, j: nat)
    requires j < |entries| && entries[j].key == "}" && p <= |s.text| && EntriesEnd(s.text, p, entries, j).Some?
    ensures ObjectSlack(s, p, entries, j) >= 0
  {
    var t, a := s.text, PastComma(p, j);
    FirstEntry(t, p, entries, j);
    KeyFound(t, SkipBlanks(t, a), "}");
    BlanksBeforeKey(t, a);
    assert SkipToKey(t, a) == SkipBlanks(t, a);
    KeyQuotes(t, a);
  }

  /** The value of an entry that is not readable comes out short. */
  lemma {:induction false} FieldWastes(s: Input, p: nat, entries: seq<Entry>, j: nat)
    requires j < |entries| && KeyClean(entries[j].key) && entries[j].key != "}"
    requires Tidy(entries[j].value) && WellFormed(entries[j].value) && !Readable(entries[j].value)
    requires p <= |s.text| && EntriesEnd(s.text, p, entries, j).Some?
    ensures var head := ObjectHead(s.text, PastComma(p, j));
      head.Field? && Short(Value(s, head.next), s.text, head.next, 0)
    decreases entries, |entries| - j, 0
  {
    EntryHead(s.text, p, entries, j);
    AfterKeyWastes(s, SkipBlanks(s.text, PastComma(p, j)), entries[j]);
  }

  lemma {:induction false} AfterKeyWastes(s: Input, i: nat, e: Entry)
    requires Tidy(e.value) && WellFormed(e.value) && !Readable(e.value) && i <= |s.text| && EntryEnd(s.text, i, e).Some?
    ensures Short(Value(s, KeyEnd(s.text, i, e)), s.text, KeyEnd(s.text, i, e), 0)
    decreases e
  {
    var next, start := KeyEnd(s.text, i, e), ValueStart(s.text, i, e);
    ColonSkipped(s, i, e);
    ValueWastes(s, start, e.value);
    if Value(s, next).Ok? { QuotesAdd(s.text, next, start, Value(s, next).next); }
  }

  // ---------------------------------------------------------------- printed text has no quotes to spare

  lemma {:induction false} NoQuotes(s: string, n: nat)
    requires n <= |s| && forall j :: 0 <= j < n ==> s[j] != '"'
    ensures QuotesIn(s, 0, n) == 0
  {
    if n > 0 { NoQuotes(s, n - 1); }
  }

  lemma Marks()
    ensures QuoteCount("") == QuoteCount(",") == QuoteCount("]") == QuoteCount("}") == 0
    ensures QuoteCount("[") == QuoteCount("{") == 0
    ensures QuoteCount("null") == QuoteCount("true") == QuoteCount("false") == 0
    ensures QuoteCount("\"") == 1 && QuoteCount("\":") == 1
  {
    NoQuotes("null", 4);
    NoQuotes("true", 4);
    NoQuotes("false", 5);
    QuoteCountAdd("\"", ":");
    assert "\":" == "\"" + ":";
  }

  lemma {:induction false} PrintCost(d: Doc)
    requires Tidy(d) && WellFormed(d)
    ensures QuoteCount(Print(d)) == Cost(ValueOf(d))
    decreases d, 1
  {
    Marks();
    match d
    case ArrDoc(items) =>
      QuoteCountAdd("[", ItemsFrom(items, 0));
      PrintItemsCost(items, 0);
    case ObjDoc(entries) =>
      QuoteCountAdd("{", EntriesFrom(entries, 0));
      PrintEntriesCost(entries, 0);
    case StrDoc(x) =>
      QuoteCountAdd("\"", x + "\"");
      QuoteCountAdd(x, "\"");
    case IntDoc(n) =>
      IntText(n);
      NoQuotes(PrintInt(n), |PrintInt(n)|);
    case _ =>
  }

  lemma {:induction false} PrintItemsCost(items: seq<Doc>, j: nat)
    requires j <= |items| && Tidy(ArrDoc(items)) && WellFormed(ArrDoc(items))
    ensures Cost(ArrayTo(items, j)) + QuoteCount(ItemsFrom(items, j)) == Cost(ValueOf(ArrDoc(items)))
    decreases items, |items| - j
  {
    Marks();
    if j < |items| {
      QuoteCountAdd(Comma(j), Print(items[j]) + ItemsFrom(items, j + 1));
      QuoteCountAdd(Print(items[j]), ItemsFrom(items, j + 1));
      PrintCost(items[j]);
      PushCost(ArrayTo(items, j), ValueOf(items[j]));
      assert Push(ArrayTo(items, j), ValueOf(items[j])) == ArrayTo(items, j + 1);
      PrintItemsCost(items, j + 1);
    }
  }

  lemma {:induction false} PrintEntriesCost(entries: seq<Entry>, j: nat)
    requires j <= |entries| && Tidy(ObjDoc(entries)) && WellFormed(ObjDoc(entries))
    ensures Cost(ObjectTo(entries, j)) + QuoteCount(EntriesFrom(entries, j)) == Cost(ValueOf(ObjDoc(entries)))
    decreases entries, |entries| - j
  {
    Marks();
    if j < |entries| {
      var e, rest := entries[j], EntriesFrom(entries, j + 1);
      QuoteCountAdd(Comma(j), PrintKey(e.key) + (Print(e.value) + rest));
      QuoteCountAdd(PrintKey(e.key), Print(e.value) + rest);
      QuoteCountAdd(Print(e.value), rest);
      PrintKeyCost(e.key);
      PrintCost(e.value);
      NewField(entries, j);
      PrintEntriesCost(entries, j + 1);
    }
  }

  lemma PrintKeyCost(key: string)
    requires KeyClean(key)
    ensures QuoteCount(PrintKey(key)) == 2
  {
    Marks();
    QuoteCountAdd("\"", key + "\":");
    QuoteCountAdd(key, "\":");
    NoQuotes(key, |key|);
  }

  lemma NewField(entries: seq<Entry>, j: nat)
    requires j < |entries| && DistinctKeys(entries)
    ensures Cost(ObjectTo(entries, j + 1)) == Cost(ObjectTo(entries, j)) + 2 + Cost(ValueOf(entries[j].value))
  {
    if entries[j].key in FieldsTo(entries, j) {
      var i := EntryOf(entries, j, entries[j].key);
      assert false;
    }
    PutNext(entries, j);
    PutCost(ObjectTo(entries, j), entries[j].key, ValueOf(entries[j].value));
  }

  // ---------------------------------------------------------------- exactly which documents come back

  lemma {:induction false} NoBracket(t: string, i: nat)
    requires i <= |t| && forall j :: i <= j < |t| ==> t[j] != '{' && t[j] != '['
    ensures SkipToBracket(t, i) == |t|
    decreases |t| - i
  {
    if i < |t| { NoBracket(t, i + 1); }
  }

  /** A tidy document with a lone brace among its keys never comes back, whatever else the text holds. */
  lemma BraceKeysNeverReturn(s: Input, d: Doc)
    requires s.text == Print(d) && WellFormed(d) && Tidy(d) && !Readable(d)
    ensures Parse(s) != Returns(ValueOf(d))
  {
    PrintedWastes(s, d);
    BracketFound(s.text, 0, 0);
    PrintCost(d);
    var r := Opened(s, 0);
    if r.Ok? { QuotesAdd(s.text, 0, r.next, |s.text|); }
  }

  lemma PrintedWastes(s: Input, d: Doc)
    requires s.text == Print(d) && WellFormed(d) && Tidy(d) && !Readable(d)
    ensures s.text != "" && (s.text[0] == '{' || s.text[0] == '[') && Short(Opened(s, 0), s.text, 0, 0)
  {
    AtSlice(s.text, 0, Print(d));
    PrintLaid(s.text, 0, d);
    ContainerWastes(s, 0, d);
  }

  /**
    A printed document comes back as its value exactly when it is null, or an array or object in which
    no array and no object is empty, every string is balanced, and no key holds a quote or a null or is "}".
   */
  lemma RoundTripsExactly(s: Input, d: Doc)
    requires s.text == Print(d) && WellFormed(d)
    ensures Parse(s) == Returns(ValueOf(d)) <==> d.NullDoc? || (IsContainer(d) && Readable(d))
  {
    if d.NullDoc? {
      NoBracket(s.text, 0);
    } else if IsContainer(d) && Readable(d) {
      RoundTrip(s, d);
    } else if Parse(s) == Returns(ValueOf(d)) {
      ParseProduces(s);
      ProducedIsTidy(d);
      BraceKeysNeverReturn(s, d);
    }
  }

  // ---------------------------------------------------------------- every value has a document

  predicate NoDoubles(v: Json) {
    match v
    case Double(_) => false
    case Int(i) => IsInt64(i)
    case Arr(items) => forall i {:trigger items[i]} :: 0 <= i < |items| ==> NoDoubles(items[i])
    case Obj(fields) => forall k :: k in fields ==> NoDoubles(fields[k])
    case _ => true
  }

  /** Every value without doubles is the value of a document, so of every order of its fields (AnyKeyOrder). */
  lemma {:induction false} DocExists(v: Json) returns (d: Doc)
    requires NoDoubles(v)
    ensures WellFormed(d) && ValueOf(d) == v
    decreases v, 1, 0
  {
    match v
    case Null => d := NullDoc;
    case Bool(b) => d := BoolDoc(b);
    case Int(i) => d := IntDoc(i);
    case Str(x) => d := StrDoc(x);
    case Arr(items) =>
      var docs := DocsExist(items, |items|);
      d := ArrDoc(docs);
    case Obj(fields) =>
      var entries := EntriesExist(v, fields.Keys);
      d := ObjDoc(entries);
      assert FieldsTo(entries, |entries|) == fields;
  }

  lemma {:induction false} DocsExist(items: seq<Json>, n: nat) returns (docs: seq<Doc>)
    requires n <= |items| && forall i {:trigger items[i]} :: 0 <= i < |items| ==> NoDoubles(items[i])
    ensures |docs| == n && WellFormed(ArrDoc(docs)) && ValuesTo(docs, n) == items[..n]
    decreases items, n
  {
    if n == 0 {
      docs := [];
    } else {
      var first := DocsExist(items, n - 1);
      var last := DocExists(items[n - 1]);
      docs := first + [last];
      ValuesOfPrefix(first, docs, n - 1);
    }
  }

  lemma {:induction false} ValuesOfPrefix(a: seq<Doc>, b: seq<Doc>, n: nat)
    requires n <= |a| <= |b| && forall i :: 0 <= i < n ==> a[i] == b[i]
    ensures ValuesTo(a, n) == ValuesTo(b, n)
  {
    if n > 0 { ValuesOfPrefix(a, b, n - 1); }
  }

  /** The entries list these keys, with documents for their values. */
  ghost predicate Lists(entries: seq<Entry>, v: Json, keys: set<string>)
    requires v.Obj? && keys <= v.fields.Keys
  {
    var fields := FieldsTo(entries, |entries|);
    WellFormed(ObjDoc(entries)) && fields.Keys == keys && forall k :: k in keys ==> fields[k] == v.fields[k]
  }

  lemma {:induction false} EntriesExist(v: Json, keys: set<string>) returns (entries: seq<Entry>)
    requires v.Obj? && keys <= v.fields.Keys && forall k :: k in v.fields ==> NoDoubles(v.fields[k])
    ensures Lists(entries, v, keys)
    decreases v, 0, |keys|
  {
    if keys == {} {
      entries := [];
    } else {
      var k :| k in keys;
      var others := EntriesExist(v, keys - {k});
      var value := DocExists(v.fields[k]);
      entries := others + [Entry(k, value)];
      OneMore(others, Entry(k, value), v, keys);
    }
  }

  lemma OneMore(others: seq<Entry>, e: Entry, v: Json, keys: set<string>)
    requires v.Obj? && keys <= v.fields.Keys && e.key in keys && Lists(others, v, keys - {e.key})
    requires WellFormed(e.value) && ValueOf(e.value) == v.fields[e.key]
    ensures Lists(others + [e], v, keys)
  {
    FieldsOfPrefix(others, others + [e], |others|);
    KeysAreFields(others);
    assert FieldsTo(others + [e], |others| + 1) == FieldsTo(others, |others|)[e.key := ValueOf(e.value)];
  }

  lemma {:induction false} FieldsOfPrefix(a: seq<Entry>, b: seq<Entry>, n: nat)
    requires n <= |a| <= |b| && forall i :: 0 <= i < n ==> a[i] == b[i]
    ensures FieldsTo(a, n) == FieldsTo(b, n)
  {
    if n > 0 { FieldsOfPrefix(a, b, n - 1); }
  }

  lemma KeysAreFields(entries: seq<Entry>)
    requires DistinctKeys(entries)
    ensures forall i {:trigger entries[i]} :: 0 <= i < |entries| ==> entries[i].key in FieldsTo(entries, |entries|)
  {
    forall i {:trigger entries[i]} | 0 <= i < |entries| { FieldOf(entries, |entries|, i); }
  }
}
