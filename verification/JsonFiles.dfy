/** JSON kept in a file: the reader drops all white space and adds one character. */
module JsonFiles {
  import opened Decimals
  import opened JsonText
  import opened JsonParser
  import opened JsonPieces
  import opened JsonRoundTrip
  import JsonReaders
  import JsonWriters

  // ---------------------------------------------------------------- reading a file

  /** What `>>` skips. */
  predicate IsSpace(c: char)
  {
    IsBlank(c) || c as int == 11 || c as int == 12
  }

  function Strip(t: string): (r: string)
    ensures |r| <= |t|
  {
    if t == "" then ""
    else if IsSpace(t[0]) then Strip(t[1..])
    else [t[0]] + Strip(t[1..])
  }

  predicate NoSpace(t: string)
  {
    forall i :: 0 <= i < |t| ==> !IsSpace(t[i])
  }

  lemma {:induction false} StripNothing(t: string)
    ensures Strip(t) == t <==> NoSpace(t)
  {
    if t != "" {
      StripNothing(t[1..]);
      assert t == [t[0]] + t[1..];
      assert NoSpace(t) <==> !IsSpace(t[0]) && NoSpace(t[1..]) by {
        assert forall i :: 0 < i < |t| ==> t[i] == t[1..][i - 1];
        assert forall i :: 0 <= i < |t[1..]| ==> t[1..][i] == t[i + 1];
      }
    }
  }

  /** One character of the file. */
  lemma StripHere(t: string, i: nat)
    requires i <= |t|
    ensures Strip(t[i..]) ==
            if i == |t| then "" else (if IsSpace(t[i]) then "" else [t[i]]) + Strip(t[i + 1..])
  {
    if i < |t| {
      assert t[i..][1..] == t[i + 1..];
    }
  }

  /** The loop of `JsonFileRWer::read`: the last extraction fails, and leaves `junk` to be pushed. */
  method ReadFile(contents: string, junk: char) returns (data: string)
    ensures data == Strip(contents) + [junk]
  {
    hide Strip, IsSpace;
    data := "";
    var at, good := 0, true;
    assert contents[0..] == contents;
    while good
      invariant at <= |contents|
      invariant good ==> data + Strip(contents[at..]) == Strip(contents)
      invariant !good ==> data == Strip(contents) + [junk]
      decreases good, |contents| - at
    {
      at := SkipSpace(contents, at);
      StripHere(contents, at);
      var ch := junk;
      if at < |contents| {
        ch := contents[at];
        at := at + 1;
      } else {
        good := false;
        assert data + "" == data;
      }
      data := data + [ch];
    }
  }

  method SkipSpace(contents: string, from: nat) returns (at: nat)
    requires from <= |contents|
    ensures from <= at <= |contents| && Strip(contents[at..]) == Strip(contents[from..])
    ensures at < |contents| ==> !IsSpace(contents[at])
  {
    hide Strip, IsSpace;
    at := from;
    while at < |contents| && IsSpace(contents[at])
      invariant from <= at <= |contents| && Strip(contents[at..]) == Strip(contents[from..])
    {
      StripHere(contents, at);
      assert "" + Strip(contents[at + 1..]) == Strip(contents[at + 1..]);
      at := at + 1;
    }
  }

  /** `JsonFileRWer::read` on a file with these contents. */
  method Read(contents: string, junk: char) returns (ok: bool, val: Json)
    ensures var p := Parse(Strip(contents) + [junk]); ok == p.Done? && (ok ==> val == p.value)
  {
    hide Parse, Strip;
    var data := ReadFile(contents, junk);
    var p := new JsonReaders.Parser(data);
    ok, val := p.Parse();
  }

  /** `JsonFileRWer::write`: what the file then holds. */
  method Write(val: Json) returns (contents: string)
    requires val.Object?
    ensures contents == Print(val, PRETTY)
  {
    hide Print;
    var w := new JsonWriters.Writer();
    w.PrintObject(val);
    contents := w.out;
    assert "" + Print(val, PRETTY) == Print(val, PRETTY);
  }

  lemma {:induction false} StripAppend(a: string, b: string)
    ensures Strip(a + b) == Strip(a) + Strip(b)
  {
    hide IsSpace;
    if a == "" {
      assert a + b == b;
    } else {
      assert (a + b)[1..] == a[1..] + b;
      StripAppend(a[1..], b);
    }
  }

  /** The value with the white space taken out of every string. */
  function StripValue(v: Json): Json
    decreases v
  {
    match v
    case String(s) => String(Strip(s))
    case Array(items) => Array(StripItems(items))
    case Object(members) => Object(StripMembers(members))
    case _ => v
  }

  function StripItems(items: seq<Json>): seq<Json>
    decreases items
  {
    seq(|items|, i requires 0 <= i < |items| => StripValue(items[i]))
  }

  function StripMembers(members: seq<Member>): seq<Member>
    decreases members
  {
    seq(|members|, i requires 0 <= i < |members| => StripMember(members[i]))
  }

  function StripMember(m: Member): Member
    decreases m
  {
    Member(Strip(m.key), StripValue(m.value))
  }

  lemma NumberHasNoSpace(x: real)
    ensures Strip(PrintNumber(x)) == PrintNumber(x)
  {
    hide Millionths, Digits, Padded, Strip;
    StripNothing(PrintNumber(x));
  }

  lemma StripQuoted(s: string)
    ensures Strip(Quoted(s)) == Quoted(Strip(s))
  {
    StripNothing("\"");
    hide Strip;
    StripAppend("\"" + s, "\"");
    StripAppend("\"", s);
  }

  lemma StripLayout()
    ensures Strip(PRETTY.item) == "" && Strip(PRETTY.nextItem) == "" && Strip(PRETTY.open) == ""
    ensures Strip(PRETTY.colon) == "" && Strip(PRETTY.value) == "" && Strip(PRETTY.nextMember) == ""
    ensures Strip(PRETTY.close) == ""
    ensures Strip("[") == "[" && Strip("]") == "]" && Strip("{") == "{" && Strip("}") == "}"
    ensures Strip(",") == "," && Strip(":") == ":"
  {}

  /** Without its white space, the printed text is what a writer without blanks would print. */
  lemma {:induction false} StripPrint(v: Json)
    ensures Strip(Print(v, PRETTY)) == Print(StripValue(v), COMPACT)
    decreases v
  {
    hide Strip;
    StripLayout();
    match v
    case Null => StripWords();
    case Bool(b) => StripWords();
    case Number(x) => NumberHasNoSpace(x);
    case String(s) => StripQuoted(s);
    case Array(items) => StripArray(items);
    case Object(members) => StripObject(members);
  }

  lemma StripWords()
    ensures Strip("null") == "null" && Strip("true") == "true" && Strip("false") == "false"
  {
    hide Strip;
    StripNothing("null");
    StripNothing("true");
    StripNothing("false");
  }

  lemma {:induction false} StripArray(items: seq<Json>)
    ensures Strip(Print(Array(items), PRETTY)) == Print(Array(StripItems(items)), COMPACT)
    decreases items, 1
  {
    hide Strip, PrintItems, StripValue;
    StripLayout();
    if items == [] {
      StripAppend("[", "]");
      assert "[" + "]" == "[]";
    } else {
      StripPrintItems(items);
      StripAppend("[" + PrintItems(items, PRETTY), "]");
      StripAppend("[", PrintItems(items, PRETTY));
    }
  }

  lemma {:induction false} StripPrintItems(items: seq<Json>)
    requires items != []
    ensures Strip(PrintItems(items, PRETTY)) == PrintItems(StripItems(items), COMPACT)
    decreases items, 0
  {
    hide Strip, Print, StripValue;
    StripPrint(items[0]);
    StripLayout();
    assert StripItems(items)[0] == StripValue(items[0]);
    if |items| == 1 {
      assert Print(items[0], PRETTY) + "" == Print(items[0], PRETTY);
    } else {
      StripPrintItems(items[1..]);
      assert StripItems(items)[1..] == StripItems(items[1..]);
      var tail := PrintItems(items[1..], PRETTY);
      StripAppend(Print(items[0], PRETTY), PRETTY.item + "," + PRETTY.nextItem + tail);
      StripAppend(PRETTY.item + "," + PRETTY.nextItem, tail);
      StripAppend(PRETTY.item + ",", PRETTY.nextItem);
      StripAppend(PRETTY.item, ",");
    }
  }

  lemma {:induction false} StripObject(members: seq<Member>)
    ensures Strip(Print(Object(members), PRETTY)) == Print(Object(StripMembers(members)), COMPACT)
    decreases members, 1
  {
    hide Strip, PrintMembers, StripMember;
    StripLayout();
    if members == [] {
      StripAppend("{", "}");
      assert "{" + "}" == "{}";
    } else {
      var x := PrintMembers(members, PRETTY);
      StripPrintMembers(members);
      StripAppend("{" + PRETTY.open + x + PRETTY.close, "}");
      StripAppend("{" + PRETTY.open + x, PRETTY.close);
      StripAppend("{" + PRETTY.open, x);
      StripAppend("{", PRETTY.open);
    }
  }

  lemma StripHead(m: Member)
    ensures Strip(Quoted(m.key) + PRETTY.colon + ":" + PRETTY.value) ==
            Quoted(Strip(m.key)) + COMPACT.colon + ":" + COMPACT.value
  {
    hide Strip;
    StripLayout();
    StripQuoted(m.key);
    StripAppend(Quoted(m.key) + PRETTY.colon + ":", PRETTY.value);
    StripAppend(Quoted(m.key) + PRETTY.colon, ":");
    StripAppend(Quoted(m.key), PRETTY.colon);
  }

  lemma {:induction false} StripPrintMembers(members: seq<Member>)
    requires members != []
    ensures Strip(PrintMembers(members, PRETTY)) == PrintMembers(StripMembers(members), COMPACT)
    decreases members, 0
  {
    hide Strip, Print, StripValue, Quoted;
    var m := members[0];
    var head := Quoted(m.key) + PRETTY.colon + ":" + PRETTY.value;
    StripPrint(m.value);
    StripHead(m);
    StripAppend(head, Print(m.value, PRETTY));
    StripLayout();
    assert StripMembers(members)[0] == StripMember(m);
    if |members| == 1 {
      assert head + Print(m.value, PRETTY) + "" == head + Print(m.value, PRETTY);
    } else {
      StripPrintMembers(members[1..]);
      assert StripMembers(members)[1..] == StripMembers(members[1..]);
      var tail := PrintMembers(members[1..], PRETTY);
      StripAppend(head + Print(m.value, PRETTY), "," + PRETTY.nextMember + tail);
      StripAppend("," + PRETTY.nextMember, tail);
      StripAppend(",", PRETTY.nextMember);
    }
  }

  // ---------------------------------------------------------------- the file round trip

  /** What is read back from the file that a value is written to. */
  function ReadBack(v: Json, junk: char): Parsed<Json>
    requires v.Object?
  {
    Parse(Strip(Print(v, PRETTY)) + [junk])
  }

  lemma ObjectPrintStarts(v: Json, l: Layout, rest: string)
    requires v.Object?
    ensures Skip(Print(v, l) + rest) == Print(v, l) + rest && Print(v, l) + rest != ""
  {
    hide PrintMembers;
    var t := Print(v, l) + rest;
    assert t[0] == '{';
  }

  /** The object is parsed from its stripped print, and the character after it is not looked at. */
  lemma ReadBackIs(v: Json, junk: char)
    requires v.Object?
    ensures ReadBack(v, junk) == ParseValue(Print(StripValue(v), COMPACT) + [junk])
  {
    hide Print, Skip, Strip, ParseValue, StripMembers;
    StripPrint(v);
    ObjectPrintStarts(StripValue(v), COMPACT, [junk]);
  }

  /** The value theorem through a file, for an object and any character the reader adds. */
  lemma ReadBackRounds(v: Json, junk: char)
    requires v.Object? && Ordered(StripValue(v)) && AllPlain(StripValue(v))
    ensures ReadBack(v, junk) == Done(RoundedValue(StripValue(v)), [junk])
  {
    hide Print, Skip, Strip, ParseValue, Ordered, AllPlain, StripMembers, RoundedValue;
    ReadBackIs(v, junk);
    var members := StripValue(v).members;
    ObjectBackThen(members, [junk]);
  }

  lemma ObjectBackThen(members: seq<Member>, rest: string)
    requires Ordered(Object(members)) && AllPlain(Object(members))
    ensures ParseValue(Print(Object(members), COMPACT) + rest) == Done(RoundedValue(Object(members)), rest)
  {
    hide Print, ParseValue, Ascending;
    ObjectBack(members, COMPACT, rest);
  }

  lemma ReadBackPlain(v: Json, junk: char)
    requires v.Object? && ReadBack(v, junk).Done?
    ensures AllPlain(ReadBack(v, junk).value)
  {
    hide Print, ParseValue, Strip, AllPlain, ReadBack;
    ReadBackIs(v, junk);
    ParsedIsPlain(Print(StripValue(v), COMPACT) + [junk]);
  }

  /** Taking white space out of a plain string leaves it plain. */
  lemma {:induction false} StripKeepsPlain(s: string)
    requires Plain(s)
    ensures Plain(Strip(s))
    decreases |s|
  {
    if s != "" {
      if s[0] == '\\' {
        StripKeepsPlain(s[2..]);
        assert s[1..][1..] == s[2..];
        var r := Strip(s[2..]);
        assert Strip(s[1..]) == ['\\'] + r;
        assert Strip(s)[2..] == r;
      } else {
        StripKeepsPlain(s[1..]);
        if !IsSpace(s[0]) {
          assert Strip(s)[1..] == Strip(s[1..]);
        }
      }
    }
  }
}
