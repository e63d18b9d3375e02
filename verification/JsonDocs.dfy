/**
  JSON documents and the text the printer makes of them. A document is a value that fixes an order for
  the fields of each object, as one pass over the hash map does.
 */
module JsonDocs {
  import opened Wrappers
  import opened JsonText

  datatype Entry = Entry(key: string, value: Doc)

  datatype Doc =
    | NullDoc
    | BoolDoc(b: bool)
    | IntDoc(i: int)
    | StrDoc(s: string)
    | ArrDoc(items: seq<Doc>)
    | ObjDoc(entries: seq<Entry>)

  // ---------------------------------------------------------------- the printer

  function DigitChar(n: nat): (c: char)
    requires n < 10
    ensures IsDigit(c) && DigitValue(c) == n
  {
    '0' + n as char
  }

  function PrintNat(n: nat): (r: string)
    ensures r != "" && AllDigits(r)
  {
    if n < 10 then [DigitChar(n)] else PrintNat(n / 10) + [DigitChar(n % 10)]
  }

  function PrintInt(i: int): string {
    if i < 0 then "-" + PrintNat(-i) else PrintNat(i)
  }

  function Quoted(s: string): string {
    "\"" + (s + "\"")
  }

  predicate IsContainer(d: Doc) {
    d.ArrDoc? || d.ObjDoc?
  }

  function PrintScalar(d: Doc): string
    requires !IsContainer(d)
  {
    match d
    case NullDoc => "null"
    case BoolDoc(b) => if b then "true" else "false"
    case IntDoc(i) => PrintInt(i)
    case StrDoc(s) => Quoted(s)
  }

  function Print(d: Doc): string
    decreases d, 0
  {
    match d
    case ArrDoc(items) => "[" + ItemsFrom(items, 0)
    case ObjDoc(entries) => "{" + EntriesFrom(entries, 0)
    case _ => PrintScalar(d)
  }

  function Comma(j: nat): string {
    if j > 0 then "," else ""
  }

  /** What the array loop still has to write before item j. */
  function ItemsFrom(items: seq<Doc>, j: nat): string
    requires j <= |items|
    decreases items, |items| - j
  {
    if j == |items| then "]" else Comma(j) + (Print(items[j]) + ItemsFrom(items, j + 1))
  }

  function PrintKey(key: string): string {
    "\"" + (key + "\":")
  }

  /** What the object loop still has to write before entry j. */
  function EntriesFrom(entries: seq<Entry>, j: nat): string
    requires j <= |entries|
    decreases entries, |entries| - j
  {
    if j == |entries| then "}"
    else Comma(j) + (PrintKey(entries[j].key) + (Print(entries[j].value) + EntriesFrom(entries, j + 1)))
  }

  // ---------------------------------------------------------------- the value a document stands for

  function ValueOf(d: Doc): Json
    decreases d, 0
  {
    match d
    case NullDoc => Null
    case BoolDoc(b) => Bool(b)
    case IntDoc(i) => Int(i)
    case StrDoc(s) => Str(s)
    case ArrDoc(items) => Arr(ValuesTo(items, |items|))
    case ObjDoc(entries) => Obj(FieldsTo(entries, |entries|))
  }

  function ValuesTo(items: seq<Doc>, n: nat): (r: seq<Json>)
    requires n <= |items|
    ensures |r| == n
    decreases items, n
  {
    if n == 0 then [] else ValuesTo(items, n - 1) + [ValueOf(items[n - 1])]
  }

  function FieldsTo(entries: seq<Entry>, n: nat): map<string, Json>
    requires n <= |entries|
    decreases entries, n
  {
    if n == 0 then map[] else FieldsTo(entries, n - 1)[entries[n - 1].key := ValueOf(entries[n - 1].value)]
  }

  predicate DistinctKeys(entries: seq<Entry>) {
    forall i, j :: 0 <= i < j < |entries| ==> entries[i].key != entries[j].key
  }

  /** What the types of the values guarantee: 64-bit integers, and a key once per object. */
  predicate WellFormed(d: Doc) {
    match d
    case IntDoc(i) => IsInt64(i)
    case ArrDoc(items) => forall i {:trigger items[i]} :: 0 <= i < |items| ==> WellFormed(items[i])
    case ObjDoc(entries) =>
      DistinctKeys(entries) && forall i {:trigger entries[i]} :: 0 <= i < |entries| ==> WellFormed(entries[i].value)
    case _ => true
  }

  lemma {:induction false} ValuesToAt(items: seq<Doc>, n: nat, i: nat)
    requires i < n <= |items|
    ensures ValuesTo(items, n)[i] == ValueOf(items[i])
  {
    if i < n - 1 { ValuesToAt(items, n - 1, i); }
  }

  lemma {:induction false} FieldOf(entries: seq<Entry>, n: nat, i: nat)
    requires i < n <= |entries| && DistinctKeys(entries)
    ensures entries[i].key in FieldsTo(entries, n)
    ensures FieldsTo(entries, n)[entries[i].key] == ValueOf(entries[i].value)
  {
    if i < n - 1 { FieldOf(entries, n - 1, i); }
  }

  lemma {:induction false} EntryOf(entries: seq<Entry>, n: nat, key: string) returns (i: nat)
    requires n <= |entries| && key in FieldsTo(entries, n)
    ensures i < n && entries[i].key == key
  {
    i := n - 1;
    if entries[i].key != key { i := EntryOf(entries, n - 1, key); }
  }

  lemma FieldWithin(a: seq<Entry>, b: seq<Entry>, key: string)
    requires DistinctKeys(a) && DistinctKeys(b) && multiset(a) == multiset(b)
    requires key in FieldsTo(a, |a|)
    ensures key in FieldsTo(b, |b|) && FieldsTo(a, |a|)[key] == FieldsTo(b, |b|)[key]
  {
    var i := EntryOf(a, |a|, key);
    assert a[i] in multiset(b);
    var j :| 0 <= j < |b| && b[j] == a[i];
    FieldOf(a, |a|, i);
    FieldOf(b, |b|, j);
  }

  /** Documents that differ only in the order of an object's fields stand for the same value. */
  lemma AnyKeyOrder(a: seq<Entry>, b: seq<Entry>)
    requires DistinctKeys(a) && DistinctKeys(b) && multiset(a) == multiset(b)
    ensures ValueOf(ObjDoc(a)) == ValueOf(ObjDoc(b))
  {
    var m, n := FieldsTo(a, |a|), FieldsTo(b, |b|);
    forall key
      ensures key in m <==> key in n
      ensures key in m ==> m[key] == n[key]
    {
      if key in m { FieldWithin(a, b, key); }
      if key in n { FieldWithin(b, a, key); }
    }
    assert m == n;
  }

  // ---------------------------------------------------------------- what survives the text

  /** Every quote is escaped, and no backslash is left open at the end. */
  predicate Balanced(x: string, j: nat, escaped: bool)
    requires j <= |x|
    decreases |x| - j
  {
    if j == |x| then !escaped
    else if escaped then Balanced(x, j + 1, false)
    else x[j] != '"' && Balanced(x, j + 1, x[j] == '\\')
  }

  predicate KeyClean(key: string) {
    forall j :: 0 <= j < |key| ==> key[j] != '"' && key[j] != '\0'
  }

  /** Nothing is empty, strings are balanced and keys are clean. */
  predicate Tidy(d: Doc) {
    match d
    case StrDoc(s) => Balanced(s, 0, false)
    case ArrDoc(items) => items != [] && forall i {:trigger items[i]} :: 0 <= i < |items| ==> Tidy(items[i])
    case ObjDoc(entries) =>
      entries != [] && forall i {:trigger entries[i]} :: 0 <= i < |entries| ==>
        KeyClean(entries[i].key) && Tidy(entries[i].value)
    case _ => true
  }

  /** And no key is a lone closing brace. */
  predicate Readable(d: Doc) {
    match d
    case StrDoc(s) => Balanced(s, 0, false)
    case ArrDoc(items) => items != [] && forall i {:trigger items[i]} :: 0 <= i < |items| ==> Readable(items[i])
    case ObjDoc(entries) =>
      entries != [] && forall i {:trigger entries[i]} :: 0 <= i < |entries| ==> EntryReadable(entries[i])
    case _ => true
  }

  predicate EntryReadable(e: Entry) {
    KeyClean(e.key) && e.key != "}" && Readable(e.value)
  }
}
