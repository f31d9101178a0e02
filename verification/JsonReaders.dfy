/** The JSON parser, moving a cursor over a text. */
module JsonReaders {
  import opened Decimals
  import opened JsonText
  import opened JsonParser
  import opened Doubles

  /** One round of the loop over a string. */
  lemma BodyHere(t: string, i: nat, s: string)
    requires i < |t|
    ensures t[i] == '\"' ==> StringBody(From(t, i), s) == Done(s, From(t, i + 1))
    ensures t[i] == '\0' ==> StringBody(From(t, i), s) == Fail
    ensures t[i] == '\\' ==> StringBody(From(t, i), s) == StringBody(From(t, i + 2), s + ['\\'] + ['\\'])
    ensures t[i] !in {'\"', '\0', '\\'} ==>
              StringBody(From(t, i), s) == StringBody(From(t, i + 1), s + [t[i]])
  {
    assert From(t, i)[1..] == From(t, i + 1);
    assert From(From(t, i), 2) == From(t, i + 2);
    assert s + ['\\'] + ['\\'] == s + "\\\\";
  }

  lemma BodyAtEnd(s: string)
    ensures StringBody("", s) == Fail
  {}

  /** One round of the loop over an array. */
  lemma ItemsHere(t: string, sofar: seq<Json>)
    ensures ParseItems(t, sofar) ==
            (var v := ParseValue(Skip(t));
             if v.Fail? then Fail else
             var u := Skip(v.rest);
             if At(u) == ',' then ParseItems(u[1..], sofar + [v.value])
             else if At(u) == ']' then Done(Array(sofar + [v.value]), u[1..]) else Fail)
  {
    hide ParseValue, Skip;
  }

  /** One round of the loop over an object. */
  lemma MembersHere(t: string, sofar: seq<Member>)
    ensures ParseMembers(t, sofar) ==
            (var m := ParseMember(t);
             if m.Fail? then Fail else
             var members := Emplace(sofar, m.value);
             var u := Skip(m.rest);
             if At(u) == ',' then ParseMembers(Skip(u[1..]), members)
             else if At(u) == '}' then Done(Object(members), u[1..])
             else if u == "" then Fail else ParseMembers(u, members))
  {
    hide ParseMember, Skip;
  }

  lemma ArrayHere(t: string)
    requires t != ""
    ensures JsonParser.ParseArray(t) ==
            (var u := Skip(t[1..]);
             if u == "" then Fail else if At(u) == ']' then Done(Array([]), u[1..]) else ParseItems(u, []))
  {
    hide ParseItems, Skip;
  }

  lemma ObjectHere(t: string)
    requires t != ""
    ensures JsonParser.ParseObject(t) ==
            (var u := Skip(t[1..]);
             if u == "" then Fail else if At(u) == '}' then Done(Object([]), u[1..]) else ParseMembers(u, []))
  {
    hide ParseMembers, Skip;
  }

  lemma FractionFrom(t: string, i: nat)
    requires i <= |t|
    ensures SkipFraction(From(t, i)) ==
            if i < |t| && t[i] == '.' then
              (var u := From(t, i + 1); if IsDigit(At(u)) then Done((), u[Run(u)..]) else Fail)
            else Done((), From(t, i))
  {
    hide Run;
    assert i < |t| ==> From(t, i)[1..] == From(t, i + 1);
  }

  lemma ExponentFrom(t: string, i: nat)
    requires i <= |t|
    ensures SkipExponent(From(t, i)) ==
            if i < |t| && IsExponent(t[i]) then
              (var u := From(t, if i + 1 < |t| && IsSign(t[i + 1]) then i + 2 else i + 1);
               if IsDigit(At(u)) then Done((), u[Run(u)..]) else Fail)
            else Done((), From(t, i))
  {
    hide Run;
    assert i < |t| ==> From(t, i)[1..] == From(t, i + 1);
    assert i + 1 < |t| ==> From(t, i)[2..] == From(t, i + 2);
  }

  lemma NumberFrom(t: string, i: nat)
    requires i <= |t|
    ensures var j := if At(From(t, i)) == '-' then i + 1 else i;
            && j <= |t|
            && SkipNumber(From(t, i)) ==
               (var u := From(t, j);
                if !IsDigit(At(u)) then Fail
                else
                  var f := SkipFraction(if At(u) == '0' then From(t, j + 1) else u[Run(u)..]);
                  if f.Fail? then Fail else SkipExponent(f.rest))
  {
    hide Run, SkipFraction, SkipExponent;
    var j := if At(From(t, i)) == '-' then i + 1 else i;
    assert i < |t| ==> From(t, i)[1..] == From(t, i + 1);
    assert j < |t| ==> From(t, j)[1..] == From(t, j + 1);
  }

  class Parser {
    const text: string
    var offset: nat

    constructor (t: string)
      ensures text == t && offset == 0
    {
      text := t;
      offset := 0;
    }

    /** The text from the cursor on. */
    function Rest(): string
      reads this
    {
      From(text, offset)
    }

    /** The source's `data_[offset]`. */
    function Here(): (c: char)
      reads this
      requires offset <= |text|
      ensures c == At(Rest())
    {
      if offset < |text| then text[offset] else '\0'
    }

    /** The call succeeded just when the specification does, with its value, and the cursor is where it
        says. */
    ghost predicate Agrees<T>(ok: bool, v: T, p: Parsed<T>)
      reads this
    {
      && ok == p.Done?
      && (ok ==> offset <= |text| && v == p.value && Rest() == p.rest)
    }

    method SkipBlank()
      requires offset <= |text|
      modifies this`offset
      ensures old(offset) <= offset <= |text| && Rest() == Skip(old(Rest()))
    {
      while offset < |text|
        invariant old(offset) <= offset <= |text|
        invariant Skip(Rest()) == Skip(old(Rest()))
      {
        var ch := text[offset];
        if IsBlank(ch) {
          assert Rest()[1..] == From(text, offset + 1);
          offset := offset + 1;
        } else {
          break;
        }
      }
    }

    method ParseTrue() returns (ok: bool, v: Json)
      requires offset < |text| && text[offset] == 't'
      modifies this`offset
      ensures Agrees(ok, v, ParseWord(old(Rest()), "true", Bool(true)))
    {
      v := Bool(true);
      if offset + 3 >= |text| || text[offset + 1] != 'r' || text[offset + 2] != 'u' || text[offset + 3] != 'e' {
        return false, v;
      }
      assert text[offset..][..4] == "true";
      offset := offset + 4;
      ok := true;
    }

    method ParseFalse() returns (ok: bool, v: Json)
      requires offset < |text| && text[offset] == 'f'
      modifies this`offset
      ensures Agrees(ok, v, ParseWord(old(Rest()), "false", Bool(false)))
    {
      v := Bool(false);
      if offset + 4 >= |text| || text[offset + 1] != 'a' || text[offset + 2] != 'l' || text[offset + 3] != 's'
         || text[offset + 4] != 'e' {
        return false, v;
      }
      assert text[offset..][..5] == "false";
      offset := offset + 5;
      ok := true;
    }

    method ParseNull() returns (ok: bool, v: Json)
      requires offset < |text| && text[offset] == 'n'
      modifies this`offset
      ensures Agrees(ok, v, ParseWord(old(Rest()), "null", Null))
    {
      v := Null;
      if offset + 3 >= |text| || text[offset + 1] != 'u' || text[offset + 2] != 'l' || text[offset + 3] != 'l' {
        return false, v;
      }
      assert text[offset..][..4] == "null";
      offset := offset + 4;
      ok := true;
    }

    /** The character at `i`, the text being followed by a NUL. */
    function Char(i: nat): (c: char)
      requires i <= |text|
      ensures c == At(From(text, i))
      ensures i < |text| ==> From(text, i)[1..] == From(text, i + 1)
    {
      if i < |text| then text[i] else '\0'
    }

    /** Past the digits at `begin`. */
    method PastDigits(begin: nat) returns (end: nat)
      requires begin <= |text|
      ensures end <= |text| && From(text, end) == From(text, begin)[Run(From(text, begin))..]
      ensures IsDigit(Char(begin)) ==> begin < end
      ensures begin <= end
    {
      hide Run, AllDigits;
      end := begin;
      RunHere(text, end);
      while IsDigit(Char(end))
        invariant begin <= end <= |text|
        invariant Run(From(text, begin)) == end - begin + Run(From(text, end))
        invariant IsDigit(Char(begin)) && end == begin ==> IsDigit(Char(end))
        invariant !IsDigit(Char(end)) ==> Run(From(text, end)) == 0
        decreases |text| - end
      {
        end := end + 1;
        RunHere(text, end - 1);
        RunHere(text, end);
      }
      assert From(text, begin)[end - begin..] == From(text, end);
    }

    method PastFraction(begin: nat) returns (ok: bool, end: nat)
      requires begin <= |text|
      ensures ok == SkipFraction(From(text, begin)).Done?
      ensures ok ==> begin <= end <= |text| && From(text, end) == SkipFraction(From(text, begin)).rest
    {
      hide Run, SkipFraction, From;
      FractionFrom(text, begin);
      end := begin;
      if end < |text| && text[end] == '.' {
        end := end + 1;
        if !IsDigit(Char(end)) {
          return false, end;
        }
        end := PastDigits(end);
      }
      ok := true;
    }

    method PastExponent(begin: nat) returns (ok: bool, end: nat)
      requires begin <= |text|
      ensures ok == SkipExponent(From(text, begin)).Done?
      ensures ok ==> begin <= end <= |text| && From(text, end) == SkipExponent(From(text, begin)).rest
    {
      hide Run, SkipExponent, From;
      ExponentFrom(text, begin);
      end := begin;
      if end < |text| && (text[end] == 'e' || text[end] == 'E') {
        end := end + 1;
        if end < |text| && (text[end] == '+' || text[end] == '-') {
          end := end + 1;
        }
        if !IsDigit(Char(end)) {
          return false, end;
        }
        end := PastDigits(end);
      }
      ok := true;
    }

    method ParseNumber() returns (ok: bool, v: Json)
      requires offset <= |text|
      modifies this`offset
      ensures Agrees(ok, v, JsonParser.ParseNumber(old(Rest())))
    {
      hide Run, SkipFraction, SkipExponent, NumberValue, SkipNumber, From, At, OutOfRange, NearestDouble;
      hide ToDouble;
      var begin := offset;
      var end := begin;
      NumberFrom(text, begin);
      v := Null;
      ok := false;
      if Char(end) == '-' {
        end := end + 1;
      }
      if Char(end) == '0' {
        end := end + 1;
      } else {
        if !('1' <= Char(end) <= '9') {
          return;
        }
        end := PastDigits(end);
      }
      ok, end := PastFraction(end);
      if !ok {
        return;
      }
      ok, end := PastExponent(end);
      if !ok {
        return;
      }
      ok, v := TakeNumber(end);
    }

    /** The number that ends at `end`, if it is in range. */
    method TakeNumber(end: nat) returns (ok: bool, v: Json)
      requires offset <= end <= |text|
      requires SkipNumber(Rest()).Done? && SkipNumber(Rest()).rest == From(text, end)
      modifies this`offset
      ensures Agrees(ok, v, JsonParser.ParseNumber(old(Rest())))
    {
      hide SkipNumber, NumberValue, From, At, OutOfRange, NearestDouble;
      var x := NumberValue(Rest());
      ok, v := !OutOfRange(x), Null;
      if ok {
        v := Number(ToDouble(x));
        offset := end;
      }
    }

    method ParseStringRow() returns (ok: bool, s: string)
      requires offset <= |text|
      modifies this`offset
      ensures Agrees(ok, s, JsonParser.ParseString(old(Rest())))
    {
      hide StringBody;
      s := "";
      assert From(Rest(), 1) == From(text, offset + 1);
      offset := offset + 1;
      while true
        invariant StringBody(Rest(), s) == JsonParser.ParseString(old(Rest()))
        decreases |Rest()|
      {
        if offset >= |text| {
          BodyAtEnd(s);
          return false, s;
        }
        var ch := text[offset];
        BodyHere(text, offset, s);
        if ch == '\"' {
          offset := offset + 1;
          return true, s;
        } else if ch == '\0' {
          return false, s;
        } else if ch == '\\' {
          // the inner switch looks at this same backslash, and then falls into the default case
          offset := offset + 1;
          s := s + ['\\'];
        }
        s := s + [ch];
        offset := offset + 1;
      }
    }

    method ParseString() returns (ok: bool, v: Json)
      requires offset < |text| && text[offset] == '\"'
      modifies this`offset
      ensures Agrees(ok, v, JsonParser.ParseValue(old(Rest())))
    {
      hide JsonParser.ParseString;
      var s: string;
      ok, s := ParseStringRow();
      v := String(s);
    }

    method ParseArray() returns (ok: bool, v: Json)
      requires offset < |text|
      modifies this`offset
      ensures Agrees(ok, v, JsonParser.ParseArray(old(Rest())))
      decreases |text| - offset, 0
    {
      hide JsonParser.ParseValue, Skip, ParseItems, At, From, JsonParser.ParseArray;
      v := Array([]);
      ArrayHere(Rest());
      assert Char(offset) == text[offset];
      offset := offset + 1;
      SkipBlank();
      if offset >= |text| {
        return false, v;
      }
      if Char(offset) == ']' {
        offset := offset + 1;
        return true, v;
      }
      while true
        invariant old(offset) < offset <= |text| && v.Array?
        invariant ParseItems(Rest(), v.items) == JsonParser.ParseArray(old(Rest()))
        decreases |text| - offset
      {
        var val: Json;
        ItemsHere(Rest(), v.items);
        ok, val := Parse();
        if !ok {
          return;
        }
        v := Array(v.items + [val]);
        SkipBlank();
        if Char(offset) == ',' {
          offset := offset + 1;
        } else if Char(offset) == ']' {
          offset := offset + 1;
          return true, v;
        } else {
          return false, v;
        }
      }
    }

    method ParseMember() returns (ok: bool, m: Member)
      requires offset <= |text| && text != ""
      modifies this`offset
      ensures Agrees(ok, m, JsonParser.ParseMember(old(Rest())))
      decreases |text| - offset, 0
    {
      hide JsonParser.ParseValue, Skip, JsonParser.ParseString, From, At;
      var name: string;
      var val := Null;
      ok, name := ParseStringRow();
      m := Member(name, val);
      if !ok {
        return;
      }
      SkipBlank();
      if Char(offset) != ':' {
        return false, m;
      }
      offset := offset + 1;
      ok, val := Parse();
      m := Member(name, val);
    }

    method ParseObject() returns (ok: bool, v: Json)
      requires offset < |text|
      modifies this`offset
      ensures Agrees(ok, v, JsonParser.ParseObject(old(Rest())))
      decreases |text| - offset, 0
    {
      hide JsonParser.ParseMember, Skip, Emplace, ParseMembers, At, From, JsonParser.ParseObject;
      v := Object([]);
      ObjectHere(Rest());
      assert Char(offset) == text[offset];
      offset := offset + 1;
      SkipBlank();
      if offset >= |text| {
        return false, v;
      }
      if Char(offset) == '}' {
        offset := offset + 1;
        return true, v;
      }
      while true
        invariant old(offset) < offset <= |text| && v.Object?
        invariant ParseMembers(Rest(), v.members) == JsonParser.ParseObject(old(Rest()))
        decreases |text| - offset
      {
        var m: Member;
        MembersHere(Rest(), v.members);
        ok, m := ParseMember();
        if !ok {
          return;
        }
        v := Object(Emplace(v.members, m));
        SkipBlank();
        if Char(offset) == ',' {
          offset := offset + 1;
          SkipBlank();
        } else if Char(offset) == '}' {
          offset := offset + 1;
          return true, v;
        } else if offset >= |text| {
          return false, v;
        }
      }
    }

    method ParseValue() returns (ok: bool, v: Json)
      requires offset <= |text| && text != ""
      modifies this`offset
      ensures Agrees(ok, v, JsonParser.ParseValue(old(Rest())))
      decreases |text| - offset, 1
    {
      hide JsonParser.ParseArray, JsonParser.ParseObject, JsonParser.ParseNumber, JsonParser.ParseString;
      var ch := Here();
      match ch
      case 't' => ok, v := ParseTrue();
      case 'f' => ok, v := ParseFalse();
      case 'n' => ok, v := ParseNull();
      case '\"' => ok, v := ParseString();
      case '[' => ok, v := ParseArray();
      case '{' => ok, v := ParseObject();
      case _ => ok, v := ParseNumber();
    }

    method Parse() returns (ok: bool, v: Json)
      requires offset <= |text|
      modifies this`offset
      ensures text != "" ==> Agrees(ok, v, JsonParser.ParseValue(Skip(old(Rest()))))
      ensures old(offset) == 0 ==> Agrees(ok, v, JsonParser.Parse(text))
      decreases |text| - offset, 2
    {
      hide JsonParser.ParseValue, Skip;
      SkipBlank();
      if text == "" {
        return true, Null;
      }
      ok, v := ParseValue();
    }
  }
}
