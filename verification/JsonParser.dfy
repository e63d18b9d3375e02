/**
  The parser object, the container it builds and the printer loops, each tied to the functions on text.
  A parse method may be called only where the code returns, and the whole parser wherever the scan of the text
  does not get stuck.
 */
module JsonParser {
  import opened Wrappers
  import opened JsonText
  import opened JsonDocs
  import opened JsonRoundTrip
  import opened JsonScan

  /** The container behind an array or an object; indexing it decides which of the two it is. */
  class JsonObject {
    var isArray: bool
    var fields: map<string, Json>
    var items: seq<Json>

    constructor ()
      ensures !isArray && fields == map[] && items == []
    {
      isArray, fields, items := false, map[], [];
    }

    function Contents(): Json
      reads this
    {
      if isArray then Arr(items) else Obj(fields)
    }

    /** `object[key] = value`. */
    method SetField(key: string, value: Json)
      modifies this
      ensures !isArray && fields == old(fields)[key := value] && items == old(items)
    {
      isArray := false;
      fields := fields[key := value];
    }

    /** `array[index] = value`; the array grows with nulls up to the index. */
    method SetItem(index: nat, value: Json)
      modifies this
      ensures isArray && fields == old(fields)
      ensures |items| == (if index < old(|items|) then old(|items|) else index + 1) && items[index] == value
      ensures forall k :: 0 <= k < |items| && k != index ==> items[k] == if k < old(|items|) then old(items)[k] else Null
    {
      isArray := true;
      if index >= |items| {
        items := items + seq(index + 1 - |items|, _ => Null);
      }
      items := items[index := value];
    }
  }

  /** The value a container variable holds; before its first element it is null. */
  function ValueIn(container: JsonObject?): Json
    reads container
  {
    if container == null then Null else container.Contents()
  }

  /** Assigning a field of a container variable, which makes it an object. */
  method AssignField(container: JsonObject?, key: string, value: Json) returns (changed: JsonObject)
    requires container != null ==> !container.isArray
    modifies container
    ensures changed == container || (container == null && fresh(changed))
    ensures !changed.isArray && ValueIn(changed) == Put(old(ValueIn(container)), CString(key), value)
  {
    if container == null { changed := new JsonObject(); } else { changed := container; }
    changed.SetField(CString(key), value);
  }

  /** Assigning the next item of a container variable, which makes it an array. */
  method AssignItem(container: JsonObject?, index: nat, value: Json) returns (changed: JsonObject)
    requires container != null ==> container.isArray
    requires index == if container == null then 0 else |container.items|
    modifies container
    ensures changed == container || (container == null && fresh(changed))
    ensures changed.isArray && |changed.items| == index + 1
    ensures ValueIn(changed) == Push(old(ValueIn(container)), value)
  {
    ghost var before := ValueIn(container);
    if container == null { changed := new JsonObject(); } else { changed := container; }
    changed.SetItem(index, value);
    assert ValueIn(changed) == Push(before, value);
  }

  class JsonParseNew {
    const input: Input
    var valid: bool

    constructor (input: Input)
      ensures this.input == input && valid
    {
      this.input, valid := input, true;
    }

    /** The method's outcome is what the parse function says. */
    ghost predicate Gave(r: Parsed, value: Json, next: nat)
      reads this
    {
      match r
      case Ok(v, n) => valid && value == v && next == n
      case _ => !valid
    }

    method ParseKey(start: nat) returns (key: string, next: nat)
      requires start <= |input.text| && valid
      modifies this`valid
      ensures Key(input.text, start) == if valid then Some((key, next)) else None
    {
      var t := input.text;
      key, next := "", start;
      var from := start;
      while from < |t| && t[from] != '"' && t[from] != '}'
        invariant from <= |t| && SkipToKey(t, from) == SkipToKey(t, start)
      {
        from := from + 1;
      }
      if from >= |t| {
        valid := false;
        return;
      }
      if t[from] == '}' { return "}", from + 1; }
      from := from + 1;
      var end := from;
      while end < |t| && t[end] != '"'
        invariant from <= end <= |t| && SkipToQuote(t, end) == SkipToQuote(t, from)
      {
        end := end + 1;
      }
      if end >= |t| {
        valid := false;
        return;
      }
      return t[from..end], end + 1;
    }

    method ParseValueString(start: nat) returns (res: string, next: nat)
      requires start <= |input.text| && valid
      modifies this`valid
      ensures var end := StringEnd(input.text, start, false);
        valid == (end < |input.text|) && (valid ==> res == input.text[start..end] && next == end + 1)
    {
      var t := input.text;
      res, next := "", start;
      var end, escaped := start, false;
      while end < |t|
        invariant start <= end <= |t| && StringEnd(t, end, escaped) == StringEnd(t, start, false)
      {
        if escaped {
          escaped := false;
        } else if t[end] == '\\' {
          escaped := true;
        } else if t[end] == '"' {
          return t[start..end], end + 1;
        }
        end := end + 1;
      }
      valid := false;
    }

    method ParseValueNumber(start: nat) returns (res: Json, next: nat)
      requires start < |input.text| && IsNumber(input.text[start]) && valid
      modifies this`valid
      ensures Gave(Number(input, start), res, next)
    {
      var t := input.text;
      res := Null;
      var isFloat, end := false, start;
      while end < |t| && InNumber(t, end)
        invariant start <= end <= |t| && NumberEnd(t, end) == NumberEnd(t, start)
        invariant isFloat == ('.' in t[start..end])
      {
        assert t[start..end + 1] == t[start..end] + [t[end]];
        if t[end] == '.' { isFloat := true; }
        end := end + 1;
      }
      next := end;
      var number := t[start..end];
      if !isFloat {
        var n := ReadInt(number);
        if n.Some? { res := Int(n.value); } else { valid := false; }
      } else {
        var d := input.toDouble(number);
        if d.Some? { res := Double(d.value); } else { valid := false; }
      }
    }

    method ParseScalar(start: nat) returns (res: Json, next: nat)
      requires start < |input.text| && StartsValue(input.text, start) && valid
      requires input.text[start] != '{' && input.text[start] != '['
      modifies this`valid
      ensures Gave(Scalar(input, start), res, next)
    {
      var t := input.text;
      if t[start] == '"' {
        var text;
        text, next := ParseValueString(start + 1);
        res := Str(text);
      } else if IsNumber(t[start]) {
        res, next := ParseValueNumber(start);
      } else if TrueAt(t, start) {
        res, next := Bool(true), start + 4;
      } else if FalseAt(t, start) {
        res, next := Bool(false), start + 5;
      } else {
        res, next := Null, start + 4;
      }
    }

    method ParseOpened(start: nat) returns (res: Json, next: nat)
      requires start < |input.text| && (input.text[start] == '{' || input.text[start] == '[') && valid
      requires !Opened(input, start).Hangs?
      modifies this`valid
      ensures Gave(Opened(input, start), res, next)
      decreases |input.text| - start, 0
    {
      if input.text[start] == '{' {
        res, next := ParseObject(start + 1);
      } else {
        res, next := ParseArray(start + 1);
      }
    }

    method ParseValue(startPos: nat) returns (res: Json, next: nat)
      requires startPos <= |input.text| && valid && !Value(input, startPos).Hangs?
      modifies this`valid
      ensures Gave(Value(input, startPos), res, next)
      decreases |input.text| - startPos, 1
    {
      var t := input.text;
      res, next := Null, startPos;
      var start := startPos;
      while start < |t| && !StartsValue(t, start)
        invariant startPos <= start <= |t| && ValueHead(input, start) == ValueHead(input, startPos)
      {
        if IsClosing(t[start]) { return Null, start; }
        start := start + 1;
      }
      if start >= |t| {
        valid := false;
        return;
      }
      if t[start] == '{' || t[start] == '[' {
        assert ValueHead(input, start) == Opening(start);
        res, next := ParseOpened(start);
      } else {
        assert ValueHead(input, start) == Single(Scalar(input, start));
        res, next := ParseScalar(start);
      }
      if !valid { return; }
      ghost var from := next;
      while next < |t| && !IsSeparator(t[next])
        invariant next <= |t| && SkipToSeparator(t, next) == SkipToSeparator(t, from)
      {
        next := next + 1;
      }
      if next >= |t| { valid := false; }
    }

    /** One round of the object loop: the end of the object, or a key with its value. */
    method ParseField(start: nat) returns (ended: bool, key: string, value: Json, next: nat)
      requires start < |input.text| && valid
      requires var head := ObjectHead(input.text, start); head.Field? ==> !Value(input, head.next).Hangs?
      modifies this`valid
      ensures match ObjectHead(input.text, start)
              case NoKey => !valid
              case End(n) => valid && ended && next == n
              case Field(k, n) => !ended && Gave(Value(input, n), value, next) && (valid ==> key == k)
      decreases |input.text| - start, 2
    {
      ended, key, value, next := false, "", Null, start;
      if input.text[start] == '}' {
        ended, next := true, start + 1;
        return;
      }
      key, next := ParseKey(start);
      if !valid { return; }
      if key == "}" {
        ended := true;
        return;
      }
      value, next := ParseValue(next);
    }

    method ParseObject(start: nat) returns (res: Json, next: nat)
      requires start <= |input.text| && valid && !Object(input, start, Null).Hangs?
      modifies this`valid
      ensures Gave(Object(input, start, Null), res, next)
      decreases |input.text| - start, 3
    {
      var record: JsonObject? := null;
      ghost var acc, whole := Null, Object(input, start, Null);
      next := start;
      while next < |input.text|
        invariant start <= next <= |input.text| && valid && (record != null ==> fresh(record) && !record.isArray)
        invariant acc == ValueIn(record) && Object(input, next, acc) == whole
        decreases |input.text| - next
      {
        ghost var from := next;
        var ended, key, value;
        ended, key, value, next := ParseField(next);
        if !valid { return Null, next; }
        if ended { return ValueIn(record), next; }
        ghost var q := next;
        OneField(input, from, acc, value, q);
        acc := Put(acc, CString(key), value);
        assert Object(input, AfterComma(input.text, q), acc) == whole;
        record := AssignField(record, key, value);
        if input.text[next] == ',' { next := next + 1; }
        assert next == AfterComma(input.text, q);
      }
      valid := false;
      res := Null;
    }

    method ParseArray(start: nat) returns (res: Json, next: nat)
      requires start <= |input.text| && valid && !Array(input, start, Null).Hangs?
      modifies this`valid
      ensures Gave(Array(input, start, Null), res, next)
      decreases |input.text| - start, 3
    {
      var list: JsonObject? := null;
      ghost var acc, whole := Null, Array(input, start, Null);
      next := start;
      var index := 0;
      while next < |input.text|
        invariant start <= next <= |input.text| && valid && (list != null ==> fresh(list) && list.isArray)
        invariant index == if list == null then 0 else |list.items|
        invariant acc == ValueIn(list) && Array(input, next, acc) == whole
        decreases |input.text| - next
      {
        if input.text[next] == ']' { return ValueIn(list), next + 1; }
        var value;
        value, next := ParseValue(next);
        if !valid { return Null, next; }
        list := AssignItem(list, index, value);
        acc := Push(acc, value);
        index := index + 1;
        if input.text[next] == ',' { next := next + 1; }
      }
      valid := false;
      res := Null;
    }

    /** Parses the whole text; text that cannot be read gives null. */
    method ParseText() returns (res: Json)
      requires !TextGetsStuck(input)
      modifies this`valid
      ensures Returns(res) == Parse(input)
    {
      HangsExactlyWhenStuck(input);
      valid := true;
      var start := 0;
      while start < |input.text| && input.text[start] != '{' && input.text[start] != '['
        invariant start <= |input.text| && SkipToBracket(input.text, start) == SkipToBracket(input.text, 0)
      {
        start := start + 1;
      }
      if start >= |input.text| {
        valid := false;
        return Null;
      }
      var next;
      res, next := ParseOpened(start);
      if !valid { res := Null; }
    }
  }

  // ---------------------------------------------------------------- the printer loops

  class JsonStringBuilder {
    var text: string

    constructor ()
      ensures text == ""
    {
      text := "";
    }

    method WriteChar(c: char)
      modifies this
      ensures text == old(text) + [c]
    {
      text := text + [c];
    }

    method WriteRaw(data: string)
      modifies this
      ensures text == old(text) + data
    {
      text := text + data;
    }
  }

  method WriteScalar(d: Doc, builder: JsonStringBuilder)
    requires !IsContainer(d)
    modifies builder
    ensures builder.text == old(builder.text) + PrintScalar(d)
  {
    match d
    case NullDoc => builder.WriteRaw("null");
    case BoolDoc(b) => builder.WriteRaw(if b then "true" else "false");
    case IntDoc(i) => builder.WriteRaw(PrintInt(i));
    case StrDoc(s) =>
      builder.WriteChar('"');
      builder.WriteRaw(s);
      builder.WriteChar('"');
  }

  lemma Glue(whole: string, a: string, b: string, rest: string)
    requires whole == a + (b + rest)
    ensures whole == (a + b) + rest
  {
  }

  /** Writes a value, with the fields of each object in the order its document fixes. */
  method WriteStringValue(d: Doc, builder: JsonStringBuilder)
    modifies builder
    ensures builder.text == old(builder.text) + Print(d)
    decreases d, 0
  {
    match d
    case ArrDoc(items) =>
      builder.WriteChar('[');
      WriteItems(items, builder);
      Glue(builder.text, old(builder.text), "[", ItemsFrom(items, 0));
    case ObjDoc(entries) =>
      builder.WriteChar('{');
      WriteEntries(entries, builder);
      Glue(builder.text, old(builder.text), "{", EntriesFrom(entries, 0));
    case _ =>
      WriteScalar(d, builder);
  }

  method WriteItems(items: seq<Doc>, builder: JsonStringBuilder)
    modifies builder
    ensures builder.text == old(builder.text) + ItemsFrom(items, 0)
    decreases items
  {
    ghost var whole := builder.text + ItemsFrom(items, 0);
    for i := 0 to |items|
      invariant builder.text + ItemsFrom(items, i) == whole
    {
      ghost var before := builder.text;
      if i > 0 { builder.WriteChar(','); }
      assert builder.text == before + Comma(i);
      WriteStringValue(items[i], builder);
      Glue(whole, before, Comma(i), Print(items[i]) + ItemsFrom(items, i + 1));
      Glue(whole, before + Comma(i), Print(items[i]), ItemsFrom(items, i + 1));
    }
    builder.WriteChar(']');
  }

  method WriteEntries(entries: seq<Entry>, builder: JsonStringBuilder)
    modifies builder
    ensures builder.text == old(builder.text) + EntriesFrom(entries, 0)
    decreases entries
  {
    ghost var whole := builder.text + EntriesFrom(entries, 0);
    for i := 0 to |entries|
      invariant builder.text + EntriesFrom(entries, i) == whole
    {
      ghost var before, key, value := builder.text, PrintKey(entries[i].key), Print(entries[i].value);
      if i > 0 { builder.WriteChar(','); }
      assert builder.text == before + Comma(i);
      WriteKey(entries[i].key, builder);
      WriteStringValue(entries[i].value, builder);
      Glue(whole, before, Comma(i), key + (value + EntriesFrom(entries, i + 1)));
      Glue(whole, before + Comma(i), key, value + EntriesFrom(entries, i + 1));
      Glue(whole, before + Comma(i) + key, value, EntriesFrom(entries, i + 1));
    }
    builder.WriteChar('}');
  }

  method WriteKey(key: string, builder: JsonStringBuilder)
    modifies builder
    ensures builder.text == old(builder.text) + PrintKey(key)
  {
    builder.WriteChar('"');
    builder.WriteRaw(key);
    builder.WriteChar('"');
    builder.WriteChar(':');
  }

  /** Printing a readable array or object and parsing the text gives back its value. */
  method PrintThenParse(d: Doc, toDouble: string -> Option<real>) returns (res: Json)
    requires WellFormed(d) && Readable(d) && IsContainer(d)
    ensures res == ValueOf(d)
  {
    var builder := new JsonStringBuilder();
    WriteStringValue(d, builder);
    var input := Input(builder.text, toDouble);
    assert input.text == Print(d);
    RoundTrip(input, d);
    HangsExactlyWhenStuck(input);
    var parser := new JsonParseNew(input);
    res := parser.ParseText();
  }
}
