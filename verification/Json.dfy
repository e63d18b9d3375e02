/**
  The JSON values, the printer and the recursive-descent parser, as functions on one fixed text.
  The text is read by index; positions never run past its end.
 */
module JsonText {
  import opened Wrappers

  datatype Json =
    | Null
    | Bool(b: bool)
    | Int(i: int)
    | Double(d: real)
    | Str(s: string)
    | Arr(items: seq<Json>)
    | Obj(fields: map<string, Json>)

  /** The text being parsed, and the library's conversion of decimal text to a double. */
  datatype Input = Input(text: string, toDouble: string -> Option<real>)

  // ---------------------------------------------------------------- characters and words

  predicate IsNumber(c: char) {
    '0' <= c <= '9' || c == '-'
  }

  predicate IsLetter(c: char) {
    'a' <= c <= 'z' || 'A' <= c <= 'Z'
  }

  predicate IsSeparator(c: char) {
    c == ',' || c == '}' || c == ']'
  }

  predicate IsClosing(c: char) {
    c == '}' || c == ']'
  }

  /** A word counts only when a character that cannot continue it follows. */
  predicate TrueAt(t: string, i: nat) {
    && i + 4 < |t| && !IsLetter(t[i + 4])
    && t[i] == 't' && t[i + 1] == 'r' && t[i + 2] == 'u' && t[i + 3] == 'e'
  }

  predicate FalseAt(t: string, i: nat) {
    && i + 5 < |t| && !IsLetter(t[i + 5])
    && t[i] == 'f' && t[i + 1] == 'a' && t[i + 2] == 'l' && t[i + 3] == 's' && t[i + 4] == 'e'
  }

  predicate NullAt(t: string, i: nat) {
    && i + 4 < |t| && !IsLetter(t[i + 4]) && !IsNumber(t[i + 4])
    && t[i] == 'n' && t[i + 1] == 'u' && t[i + 2] == 'l' && t[i + 3] == 'l'
  }

  predicate StartsValue(t: string, i: nat)
    requires i < |t|
  {
    t[i] == '"' || t[i] == '{' || t[i] == '[' || IsNumber(t[i]) || TrueAt(t, i) || FalseAt(t, i) || NullAt(t, i)
  }

  // ---------------------------------------------------------------- scanning loops

  /** The first value or closing bracket at or after i. */
  function SkipToValue(t: string, i: nat): (r: nat)
    requires i <= |t|
    ensures i <= r <= |t| && (r < |t| ==> StartsValue(t, r) || IsClosing(t[r]))
    decreases |t| - i
  {
    if i == |t| || StartsValue(t, i) || IsClosing(t[i]) then i else SkipToValue(t, i + 1)
  }

  function SkipToSeparator(t: string, i: nat): (r: nat)
    requires i <= |t|
    ensures i <= r <= |t| && (r < |t| ==> IsSeparator(t[r]))
    decreases |t| - i
  {
    if i == |t| || IsSeparator(t[i]) then i else SkipToSeparator(t, i + 1)
  }

  function SkipToBracket(t: string, i: nat): (r: nat)
    requires i <= |t|
    ensures i <= r <= |t| && (r < |t| ==> t[r] == '{' || t[r] == '[')
    decreases |t| - i
  {
    if i == |t| || t[i] == '{' || t[i] == '[' then i else SkipToBracket(t, i + 1)
  }

  /** The first quote or closing brace at or after i. */
  function SkipToKey(t: string, i: nat): (r: nat)
    requires i <= |t|
    ensures i <= r <= |t| && (r < |t| ==> t[r] == '"' || t[r] == '}')
    decreases |t| - i
  {
    if i == |t| || t[i] == '"' || t[i] == '}' then i else SkipToKey(t, i + 1)
  }

  function SkipToQuote(t: string, i: nat): (r: nat)
    requires i <= |t|
    ensures i <= r <= |t| && (r < |t| ==> t[r] == '"')
    ensures forall j :: i <= j < r ==> t[j] != '"'
    decreases |t| - i
  {
    if i == |t| || t[i] == '"' then i else SkipToQuote(t, i + 1)
  }

  /** The end of a string value: the first quote that no backslash escapes. */
  function StringEnd(t: string, i: nat, escaped: bool): (r: nat)
    requires i <= |t|
    ensures i <= r <= |t| && (r < |t| ==> t[r] == '"')
    decreases |t| - i
  {
    if i == |t| then i
    else if escaped then StringEnd(t, i + 1, false)
    else if t[i] == '\\' then StringEnd(t, i + 1, true)
    else if t[i] == '"' then i
    else StringEnd(t, i + 1, false)
  }

  predicate InNumber(t: string, i: nat)
    requires i < |t|
  {
    IsNumber(t[i]) || t[i] == '.' || (t[i] == 'e' && i + 1 < |t| && t[i + 1] == '-')
  }

  function NumberEnd(t: string, i: nat): (r: nat)
    requires i <= |t|
    ensures i <= r <= |t| && (r < |t| ==> !InNumber(t, r))
    decreases |t| - i
  {
    if i < |t| && InNumber(t, i) then NumberEnd(t, i + 1) else i
  }

  // ---------------------------------------------------------------- integers

  const INT64_MIN: int := -0x8000_0000_0000_0000
  const INT64_MAX: int := 0x7fff_ffff_ffff_ffff

  predicate IsInt64(i: int) {
    INT64_MIN <= i <= INT64_MAX
  }

  predicate IsDigit(c: char) {
    '0' <= c <= '9'
  }

  function DigitsEnd(s: string, i: nat): (r: nat)
    requires i <= |s|
    ensures i <= r <= |s| && (r < |s| ==> !IsDigit(s[r]))
    ensures forall j :: i <= j < r ==> IsDigit(s[j])
    decreases |s| - i
  {
    if i < |s| && IsDigit(s[i]) then DigitsEnd(s, i + 1) else i
  }

  predicate AllDigits(s: string) {
    forall j :: 0 <= j < |s| ==> IsDigit(s[j])
  }

  function DigitValue(c: char): nat
    requires IsDigit(c)
  {
    c as nat - '0' as nat
  }

  function DigitsValue(s: string): nat
    requires AllDigits(s)
  {
    if s == "" then 0 else DigitsValue(s[..|s| - 1]) * 10 + DigitValue(s[|s| - 1])
  }

  /** `std::from_chars` for a 64-bit integer: a sign, the longest run of digits, and a range check. */
  function ReadInt(s: string): (r: Option<int>)
    ensures r.Some? ==> IsInt64(r.value)
  {
    var first := if s != "" && s[0] == '-' then 1 else 0;
    var end := DigitsEnd(s, first);
    if end == first then None
    else
      var n: int := DigitsValue(s[first..end]);
      var v: int := if first == 1 then -n else n;
      if IsInt64(v) then Some(v) else None
  }

  // ---------------------------------------------------------------- the parser

  /** What a parse function gives: an error, no return at all, or a value and the position it leaves. */
  datatype Parsed = Invalid | Hangs | Ok(value: Json, next: nat)

  function Number(s: Input, i: nat): (r: Parsed)
    requires i < |s.text| && IsNumber(s.text[i])
    ensures !r.Hangs?
    ensures r.Ok? ==> i < r.next <= |s.text| && (r.value.Double? || (r.value.Int? && IsInt64(r.value.i)))
  {
    var end := NumberEnd(s.text, i);
    var word := s.text[i..end];
    if '.' in word then
      match s.toDouble(word)
      case None => Invalid
      case Some(d) => Ok(Double(d), end)
    else
      match ReadInt(word)
      case None => Invalid
      case Some(n) => Ok(Int(n), end)
  }

  /** A value that is neither an array nor an object. */
  function Scalar(s: Input, i: nat): (r: Parsed)
    requires i < |s.text| && StartsValue(s.text, i) && s.text[i] != '{' && s.text[i] != '['
    ensures !r.Hangs?
    ensures r.Ok? ==> i < r.next <= |s.text|
  {
    var t := s.text;
    if t[i] == '"' then
      var end := StringEnd(t, i + 1, false);
      if end == |t| then Invalid else Ok(Str(t[i + 1..end]), end + 1)
    else if IsNumber(t[i]) then Number(s, i)
    else if TrueAt(t, i) then Ok(Bool(true), i + 4)
    else if FalseAt(t, i) then Ok(Bool(false), i + 5)
    else Ok(Null, i + 4)
  }

  /** A key and the position after its closing quote; a closing brace in its place reads as "}". */
  function Key(t: string, i: nat): (r: Option<(string, nat)>)
    requires i <= |t|
    ensures r.Some? ==> i < r.value.1 <= |t|
  {
    var start := SkipToKey(t, i);
    if start == |t| then None
    else if t[start] == '}' then Some(("}", start + 1))
    else
      var end := SkipToQuote(t, start + 1);
      if end == |t| then None else Some((t[start + 1..end], end + 1))
  }

  /** What the object loop finds: no key, the end of the object, or a key. */
  datatype KeyOrEnd = NoKey | End(next: nat) | Field(key: string, next: nat)

  function ObjectHead(t: string, i: nat): (r: KeyOrEnd)
    requires i <= |t|
    ensures !r.NoKey? ==> i < r.next <= |t|
  {
    if i == |t| then NoKey
    else if t[i] == '}' then End(i + 1)
    else
      match Key(t, i)
      case None => NoKey
      case Some((key, next)) => if key == "}" then End(next) else Field(key, next)
  }

  function NullEnd(key: string, i: nat): (r: nat)
    requires i <= |key|
    ensures i <= r <= |key| && (r < |key| ==> key[r] == '\0')
    ensures forall j :: i <= j < r ==> key[j] != '\0'
    decreases |key| - i
  {
    if i == |key| || key[i] == '\0' then i else NullEnd(key, i + 1)
  }

  /** A key as a C string: it ends at the first null character. */
  function CString(key: string): string {
    key[..NullEnd(key, 0)]
  }

  /** Assigning a field turns null into an object. */
  function Put(v: Json, key: string, value: Json): Json {
    Obj((if v.Obj? then v.fields else map[])[key := value])
  }

  /** Assigning the next index turns null into an array. */
  function Push(v: Json, value: Json): Json {
    Arr((if v.Arr? then v.items else []) + [value])
  }

  function AfterComma(t: string, i: nat): (r: nat)
    requires i <= |t|
    ensures i <= r <= |t|
  {
    if i < |t| && t[i] == ',' then i + 1 else i
  }

  /** What stands where a value is expected: nothing, a closing bracket, an opening one, or a scalar. */
  datatype Head = NoValue | Closing(at: nat) | Opening(at: nat) | Single(result: Parsed)

  function ValueHead(s: Input, i: nat): (r: Head)
    requires i <= |s.text|
    ensures r.Closing? ==> i <= r.at < |s.text| && IsClosing(s.text[r.at])
    ensures r.Opening? ==> i <= r.at < |s.text| && (s.text[r.at] == '{' || s.text[r.at] == '[')
    ensures r.Single? ==> !r.result.Hangs? && (r.result.Ok? ==> i < r.result.next <= |s.text|)
  {
    var start := SkipToValue(s.text, i);
    if start == |s.text| then NoValue
    else if !StartsValue(s.text, start) then Closing(start)
    else if s.text[start] == '{' || s.text[start] == '[' then Opening(start)
    else Single(Scalar(s, start))
  }

  /** After a value, everything up to the next separator is skipped. */
  function ToSeparator(s: Input, r: Parsed): (e: Parsed)
    requires r.Ok? ==> r.next <= |s.text|
    ensures e.Ok? ==> r.Ok? && e.value == r.value && r.next <= e.next < |s.text| && IsSeparator(s.text[e.next])
    ensures e.Hangs? <==> r.Hangs?
  {
    if !r.Ok? then r
    else
      var end := SkipToSeparator(s.text, r.next);
      if end == |s.text| then Invalid else Ok(r.value, end)
  }

  function Value(s: Input, i: nat): (r: Parsed)
    requires i <= |s.text|
    ensures r.Ok? ==> i <= r.next < |s.text| && IsSeparator(s.text[r.next])
    ensures r.Ok? && r.next == i ==> IsClosing(s.text[i])
    decreases |s.text| - i, 1
  {
    match ValueHead(s, i)
    case NoValue => Invalid
    case Closing(at) => Ok(Null, at)
    case Opening(at) => ToSeparator(s, Opened(s, at))
    case Single(r) => ToSeparator(s, r)
  }

  function Opened(s: Input, i: nat): (r: Parsed)
    requires i < |s.text| && (s.text[i] == '{' || s.text[i] == '[')
    ensures r.Ok? ==> i < r.next <= |s.text|
    decreases |s.text| - i, 0
  {
    if s.text[i] == '{' then Object(s, i + 1, Null) else Array(s, i + 1, Null)
  }

  function Object(s: Input, i: nat, acc: Json): (r: Parsed)
    requires i <= |s.text|
    ensures r.Ok? ==> i < r.next <= |s.text|
    decreases |s.text| - i, 2
  {
    match ObjectHead(s.text, i)
    case NoKey => Invalid
    case End(next) => Ok(acc, next)
    case Field(key, next) =>
      match Value(s, next)
      case Ok(v, q) => Object(s, AfterComma(s.text, q), Put(acc, CString(key), v))
      case other => other
  }

  /** A closing brace where an item should end stops the loop from ever advancing: see `RunArray`. */
  function Array(s: Input, i: nat, acc: Json): (r: Parsed)
    requires i <= |s.text|
    ensures r.Ok? ==> i < r.next <= |s.text|
    decreases |s.text| - i, 2
  {
    if i == |s.text| then Invalid
    else if s.text[i] == ']' then Ok(acc, i + 1)
    else
      match Value(s, i)
      case Ok(v, q) =>
        if s.text[q] == '}' then Hangs else Array(s, AfterComma(s.text, q), Push(acc, v))
      case other => other
  }

  /** What a call of the parser gives: a value, which is null for text it cannot read, or nothing. */
  datatype Answer = Returns(value: Json) | NeverReturns

  function ToAnswer(r: Parsed): Answer {
    match r
    case Ok(v, _) => Returns(v)
    case Invalid => Returns(Null)
    case Hangs => NeverReturns
  }

  function Parse(s: Input): Answer {
    var start := SkipToBracket(s.text, 0);
    if start == |s.text| then Returns(Null) else ToAnswer(Opened(s, start))
  }

  // ---------------------------------------------------------------- when the parser returns

  /** The result of running the code for a bounded number of nested calls and loop rounds. */
  datatype Attempt = OutOfSteps | Done(result: Parsed)

  /** The code itself, without the hang test: each call and each loop round takes a step.
      Whenever it finishes it gives what `Value` says, and it finishes unless `Value` reports a hang. */
  function RunValue(s: Input, i: nat, steps: nat): (a: Attempt)
    requires i <= |s.text|
    ensures a.Done? ==> a.result == Value(s, i) && !a.result.Hangs?
    ensures !Value(s, i).Hangs? && steps > 2 * (|s.text| - i) ==> a.Done?
    decreases steps, 1
  {
    if steps == 0 then OutOfSteps
    else
      match ValueHead(s, i)
      case NoValue => Done(Invalid)
      case Closing(at) => Done(Ok(Null, at))
      case Opening(at) =>
        (match RunOpened(s, at, steps)
         case OutOfSteps => OutOfSteps
         case Done(r) => Done(ToSeparator(s, r)))
      case Single(r) => Done(ToSeparator(s, r))
  }

  function RunOpened(s: Input, i: nat, steps: nat): (a: Attempt)
    requires i < |s.text| && (s.text[i] == '{' || s.text[i] == '[') && steps > 0
    ensures a.Done? ==> a.result == Opened(s, i) && !a.result.Hangs?
    ensures !Opened(s, i).Hangs? && steps > 2 * (|s.text| - i) ==> a.Done?
    decreases steps, 0
  {
    if s.text[i] == '{' then RunObject(s, i + 1, Null, steps - 1) else RunArray(s, i + 1, Null, steps - 1)
  }

  function RunObject(s: Input, i: nat, acc: Json, steps: nat): (a: Attempt)
    requires i <= |s.text|
    ensures a.Done? ==> a.result == Object(s, i, acc) && !a.result.Hangs?
    ensures !Object(s, i, acc).Hangs? && steps > 2 * (|s.text| - i) + 1 ==> a.Done?
    decreases steps, 1
  {
    if steps == 0 then OutOfSteps
    else
      match ObjectHead(s.text, i)
      case NoKey => Done(Invalid)
      case End(next) => Done(Ok(acc, next))
      case Field(key, next) =>
        match RunValue(s, next, steps - 1)
        case Done(Ok(v, q)) => RunObject(s, AfterComma(s.text, q), Put(acc, CString(key), v), steps - 1)
        case other => other
  }

  /** At a closing brace this loop appends nulls and stays where it is, however long it runs. */
  function RunArray(s: Input, i: nat, acc: Json, steps: nat): (a: Attempt)
    requires i <= |s.text|
    ensures a.Done? ==> a.result == Array(s, i, acc) && !a.result.Hangs?
    ensures !Array(s, i, acc).Hangs? && steps > 2 * (|s.text| - i) + 1 ==> a.Done?
    ensures i < |s.text| && s.text[i] == '}' ==> a.OutOfSteps?
    decreases steps, 1
  {
    if steps == 0 then OutOfSteps
    else if i == |s.text| then Done(Invalid)
    else if s.text[i] == ']' then Done(Ok(acc, i + 1))
    else
      match RunValue(s, i, steps - 1)
      case Done(Ok(v, q)) => RunArray(s, AfterComma(s.text, q), Push(acc, v), steps - 1)
      case other => other
  }

  function RunParse(s: Input, steps: nat): Attempt {
    var start := SkipToBracket(s.text, 0);
    if start == |s.text| then Done(Invalid)
    else if steps == 0 then OutOfSteps
    else RunOpened(s, start, steps)
  }

  /** The parser fails to return exactly when no number of steps is enough; otherwise it gives its answer. */
  lemma HangsExactlyWhenNoStepsSuffice(s: Input)
    ensures Parse(s) == NeverReturns <==> forall steps: nat :: RunParse(s, steps) == OutOfSteps
    ensures forall steps: nat :: RunParse(s, steps).Done? ==> Parse(s) == ToAnswer(RunParse(s, steps).result)
  {
    if Parse(s) != NeverReturns {
      assert RunParse(s, 2 * |s.text| + 1).Done?;
    }
  }

  lemma {:induction false} BracketFound(t: string, i: nat, at: nat)
    requires i <= at < |t| && (t[at] == '{' || t[at] == '[')
    requires forall j :: i <= j < at ==> t[j] != '{' && t[j] != '['
    ensures SkipToBracket(t, i) == at
    decreases at - i
  {
    if i < at { BracketFound(t, i + 1, at); }
  }

  /** A brace directly after the first bracket is enough to make the parser hang. */
  lemma BraceAfterBracketHangs(s: Input, before: string, after: string)
    requires s.text == before + "[}" + after
    requires forall j :: 0 <= j < |before| ==> before[j] != '{' && before[j] != '['
    ensures Parse(s) == NeverReturns
  {
    var t, n := s.text, |before|;
    assert t[n] == '[' && t[n + 1] == '}';
    BracketFound(t, 0, n);
    assert ValueHead(s, n + 1) == Closing(n + 1);
    assert Array(s, n + 1, Null) == Hangs;
  }
}
