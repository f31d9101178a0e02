/** What the JSON parser makes of a text. Each function takes the text from the cursor on and gives
    the value with the text that is left, or Fail. */
module JsonParser {
  import opened Decimals
  import opened JsonText
  import opened Doubles

  datatype Parsed<+T> = Fail | Done(value: T, rest: string)

  predicate IsBlank(c: char)
  {
    c == ' ' || c == '\t' || c == '\n' || c == '\r'
  }

  function Skip(t: string): (r: string)
    ensures |r| <= |t|
    ensures !IsBlank(At(r))
  {
    if t != "" && IsBlank(t[0]) then Skip(t[1..]) else t
  }

  // ---------------------------------------------------------------- numbers

  /** After an optional fraction. */
  function SkipFraction(t: string): (r: Parsed<()>)
    ensures r.Done? ==> |r.rest| <= |t|
  {
    if At(t) != '.' then Done((), t)
    else if !IsDigit(At(t[1..])) then Fail
    else Done((), t[1..][Run(t[1..])..])
  }

  predicate IsExponent(c: char)
  {
    c == 'e' || c == 'E'
  }

  predicate IsSign(c: char)
  {
    c == '+' || c == '-'
  }

  /** After an optional exponent. */
  function SkipExponent(t: string): (r: Parsed<()>)
    ensures r.Done? ==> |r.rest| <= |t|
  {
    if !IsExponent(At(t)) then Done((), t)
    else
      var u := if IsSign(At(t[1..])) then t[2..] else t[1..];
      if !IsDigit(At(u)) then Fail else Done((), u[Run(u)..])
  }

  function SkipMinus(t: string): string
  {
    if At(t) == '-' then t[1..] else t
  }

  /** After a number of the JSON grammar. */
  function SkipNumber(t: string): (r: Parsed<()>)
    ensures r.Done? ==> |r.rest| < |t|
  {
    var u := SkipMinus(t);
    if !IsDigit(At(u)) then Fail
    else
      var f := SkipFraction(if u[0] == '0' then u[1..] else u[Run(u)..]);
      if f.Fail? then Fail else SkipExponent(f.rest)
  }

  /** `x` times ten to the `e`. */
  function Scale(x: real, e: int): real
  {
    if e >= 0 then x * Pow10(e) as real else x / Pow10(-e) as real
  }

  /** The fraction `strtod` reads. */
  function FractionValue(t: string): real
  {
    if At(t) != '.' then 0.0
    else Portion(t[1..][..Run(t[1..])])
  }

  /** The exponent `strtod` reads; 0 where none is well formed. */
  function ExponentValue(t: string): int
  {
    if !IsExponent(At(t)) then 0
    else
      var u := if IsSign(At(t[1..])) then t[2..] else t[1..];
      var e: int := Decimal(u[..Run(u)]);
      if At(t[1..]) == '-' then -e else e
  }

  /** The text after the fraction `strtod` reads. */
  function PastFraction(t: string): string
  {
    if At(t) != '.' then t else t[1..][Run(t[1..])..]
  }

  /** The decimal number without sign `strtod` reads at the cursor. It takes all digits, where the
      grammar above stops after a leading zero. */
  function UnsignedValue(t: string): real
  {
    var n := Run(t);
    Scale(Decimal(t[..n]) as real + FractionValue(t[n..]), ExponentValue(PastFraction(t[n..])))
  }

  function NumberValue(t: string): real
  {
    Signed(At(t) == '-', UnsignedValue(SkipMinus(t)))
  }

  /** A number of the grammar, made a double; one that is out of range is refused. */
  function ParseNumber(t: string): (r: Parsed<Json>)
    ensures r.Done? ==> |r.rest| < |t|
  {
    var end := SkipNumber(t);
    if end.Fail? || OutOfRange(NumberValue(t)) then Fail
    else Done(Number(ToDouble(NumberValue(t))), end.rest)
  }

  // ---------------------------------------------------------------- literals and strings

  function ParseWord(t: string, word: string, v: Json): (r: Parsed<Json>)
    ensures r.Done? ==> |r.rest| == |t| - |word|
  {
    if word <= t then Done(v, t[|word|..]) else Fail
  }

  /** The rest of a string, `sofar` being what was read of it. A backslash is taken as two of them,
      whatever character comes after it. */
  function StringBody(t: string, sofar: string): (r: Parsed<string>)
    ensures r.Done? ==> |r.rest| < |t| && sofar <= r.value
    decreases |t|
  {
    match At(t)
    case '\0' => Fail
    case '\"' => Done(sofar, t[1..])
    case '\\' => StringBody(From(t, 2), sofar + "\\\\")
    case c => StringBody(t[1..], sofar + [c])
  }

  /** A string from its opening quote, which is not looked at. */
  function ParseString(t: string): (r: Parsed<string>)
    ensures r.Done? ==> |r.rest| < |t|
  {
    StringBody(From(t, 1), "")
  }

  // ---------------------------------------------------------------- arrays and objects

  /** Byte order of the keys. */
  predicate Less(a: string, b: string)
  {
    if b == "" then false
    else if a == "" then true
    else a[0] < b[0] || (a[0] == b[0] && Less(a[1..], b[1..]))
  }

  /** `std::map::emplace`: a key that is already present keeps its value. */
  function Emplace(members: seq<Member>, m: Member): (r: seq<Member>)
    ensures r != []
  {
    if members == [] || Less(m.key, members[0].key) then [m] + members
    else if m.key == members[0].key then members
    else [members[0]] + Emplace(members[1..], m)
  }

  function ParseValue(t: string): (r: Parsed<Json>)
    ensures r.Done? ==> |r.rest| < |t|
    decreases |t|, 1
  {
    match At(t)
    case 't' => ParseWord(t, "true", Bool(true))
    case 'f' => ParseWord(t, "false", Bool(false))
    case 'n' => ParseWord(t, "null", Null)
    case '\"' =>
      (var s := ParseString(t);
       if s.Fail? then Fail else Done(String(s.value), s.rest))
    case '[' => ParseArray(t)
    case '{' => ParseObject(t)
    case _ => ParseNumber(t)
  }

  function ParseArray(t: string): (r: Parsed<Json>)
    requires t != ""
    ensures r.Done? ==> |r.rest| < |t|
    decreases |t|, 0
  {
    var u := Skip(t[1..]);
    if u == "" then Fail
    else if u[0] == ']' then Done(Array([]), u[1..])
    else ParseItems(u, [])
  }

  function ParseObject(t: string): (r: Parsed<Json>)
    requires t != ""
    ensures r.Done? ==> |r.rest| < |t|
    decreases |t|, 0
  {
    var u := Skip(t[1..]);
    if u == "" then Fail
    else if u[0] == '}' then Done(Object([]), u[1..])
    else ParseMembers(u, [])
  }

  /** The rest of an array that is not empty, `sofar` being its items up to here. */
  function ParseItems(t: string, sofar: seq<Json>): (r: Parsed<Json>)
    ensures r.Done? ==> |r.rest| < |t|
    decreases |t|, 2
  {
    var v := ParseValue(Skip(t));
    if v.Fail? then Fail
    else
      var items := sofar + [v.value];
      var u := Skip(v.rest);
      if At(u) == ',' then ParseItems(u[1..], items)
      else if At(u) == ']' then Done(Array(items), u[1..])
      else Fail
  }

  /** A key, a colon and a value. */
  function ParseMember(t: string): (r: Parsed<Member>)
    ensures r.Done? ==> |r.rest| < |t|
    decreases |t|, 0
  {
    var k := ParseString(t);
    if k.Fail? || At(Skip(k.rest)) != ':' then Fail
    else
      var v := ParseValue(Skip(Skip(k.rest)[1..]));
      if v.Fail? then Fail else Done(Member(k.value, v.value), v.rest)
  }

  /** The rest of an object that is not empty. After a member, neither a comma nor the brace is
      demanded. */
  function ParseMembers(t: string, sofar: seq<Member>): (r: Parsed<Json>)
    ensures r.Done? ==> |r.rest| < |t|
    decreases |t|, 1
  {
    var m := ParseMember(t);
    if m.Fail? then Fail
    else
      var members := Emplace(sofar, m.value);
      var u := Skip(m.rest);
      if At(u) == ',' then ParseMembers(Skip(u[1..]), members)
      else if At(u) == '}' then Done(Object(members), u[1..])
      else if u == "" then Fail
      else ParseMembers(u, members)
  }

  /** `Value::parse`: an empty text is null. */
  function Parse(t: string): Parsed<Json>
  {
    if t == "" then Done(Null, "") else ParseValue(Skip(t))
  }
}
