/** Parsing printed JSON gives the value back, with its numbers rounded to six decimals and then to the
    nearest double, whatever blanks stand around the structural characters, exactly when its strings
    are plain. */
module JsonRoundTrip {
  import opened Decimals
  import opened JsonText
  import opened JsonParser
  import opened JsonPieces
  import opened Doubles
  import opened JsonNumbers

  /** The keys of every object ascend, as in a `std::map` they do. */
  predicate Ordered(v: Json)
  {
    match v
    case Array(items) => forall i :: 0 <= i < |items| ==> Ordered(items[i])
    case Object(members) =>
      && Ascending(Keys(members))
      && forall i :: 0 <= i < |members| ==> Ordered(members[i].value)
    case _ => true
  }

  /** Every string and every key in the value is plain. */
  predicate AllPlain(v: Json)
  {
    match v
    case String(s) => Plain(s)
    case Array(items) => forall i :: 0 <= i < |items| ==> AllPlain(items[i])
    case Object(members) =>
      forall i :: 0 <= i < |members| ==> Plain(members[i].key) && AllPlain(members[i].value)
    case _ => true
  }

  /** The value with every number as it is read after printing. */
  function RoundedValue(v: Json): Json
    decreases v
  {
    match v
    case Number(x) => Number(Reread(x))
    case Array(items) => Array(RoundedItems(items))
    case Object(members) => Object(RoundedMembers(members))
    case _ => v
  }

  function RoundedItems(items: seq<Json>): seq<Json>
    decreases items
  {
    seq(|items|, i requires 0 <= i < |items| => RoundedValue(items[i]))
  }

  function RoundedMember(m: Member): Member
    decreases m
  {
    Member(m.key, RoundedValue(m.value))
  }

  function RoundedMembers(members: seq<Member>): seq<Member>
    decreases members
  {
    seq(|members|, i requires 0 <= i < |members| => RoundedMember(members[i]))
  }

  // ---------------------------------------------------------------- printing, then parsing

  lemma PrintStarts(v: Json, l: Layout)
    ensures Print(v, l) != "" && !IsBlank(Print(v, l)[0]) && Print(v, l)[0] != ']'
  {
    hide PrintItems, PrintMembers, Digits, Padded, Millionths;
  }

  /** The value theorem: what is left after the value is left alone. */
  lemma {:induction false} ValueBack(v: Json, l: Layout, rest: string)
    requires Ordered(v) && AllPlain(v) && Blanks(l) && EndsNumber(rest)
    ensures ParseValue(Print(v, l) + rest) == Done(RoundedValue(v), rest)
    decreases v, 0
  {
    match v
    case Null => assert ("null" + rest)[4..] == rest;
    case Bool(b) =>
      assert ("true" + rest)[4..] == rest;
      assert ("false" + rest)[5..] == rest;
    case Number(x) => NumberBack(x, l, rest);
    case String(s) => StringRoundTripIff(s, rest);
    case Array(items) => ArrayBack(items, l, rest);
    case Object(members) => ObjectBack(members, l, rest);
  }

  lemma NumberBack(x: Double, l: Layout, rest: string)
    requires EndsNumber(rest)
    ensures ParseValue(PrintNumber(x) + rest) == Done(Number(Reread(x)), rest)
  {
    hide ParseNumber, Reread, Digits, Padded, Millionths;
    NumberRoundTrip(x, rest);
    var c := PrintNumber(x)[0];
    assert c == '-' || IsDigit(c);
    assert At(PrintNumber(x) + rest) == c;
  }

  /** The printed value after blanks. */
  lemma ValueAfterBlanks(b: string, v: Json, l: Layout, rest: string)
    requires AllBlank(b)
    ensures Skip(b + (Print(v, l) + rest)) == Print(v, l) + rest
  {
    hide Print;
    SkipBlanks(b, Print(v, l) + rest);
    PrintStarts(v, l);
  }

  lemma {:induction false} LastItemBack(v: Json, l: Layout, b: string, sofar: seq<Json>, rest: string)
    requires Blanks(l) && AllBlank(b) && Ordered(v) && AllPlain(v)
    ensures ParseItems(b + (Print(v, l) + ("]" + rest)), sofar)
            == Done(Array(sofar + [RoundedValue(v)]), rest)
    decreases v, 1
  {
    hide ParseValue, Print, RoundedValue, Ordered, AllPlain, Skip;
    ValueAfterBlanks(b, v, l, "]" + rest);
    ValueBack(v, l, "]" + rest);
    SkipMark("", ']', rest);
    assert "" + ("]" + rest) == "]" + rest;
  }

  lemma {:induction false} NextItemBack(v: Json, l: Layout, b: string, sofar: seq<Json>, more: string)
    requires Blanks(l) && AllBlank(b) && Ordered(v) && AllPlain(v)
    ensures ParseItems(b + (Print(v, l) + (l.item + ("," + more))), sofar)
            == ParseItems(more, sofar + [RoundedValue(v)])
    decreases v, 1
  {
    hide ParseValue, Print, RoundedValue, Ordered, AllPlain, Skip;
    var tail := l.item + ("," + more);
    ValueAfterBlanks(b, v, l, tail);
    BlankEnds(l.item, "," + more);
    ValueBack(v, l, tail);
    SkipMark(l.item, ',', more);
  }

  lemma {:induction false} ItemsBack(items: seq<Json>, l: Layout, b: string, sofar: seq<Json>, rest: string)
    requires items != [] && Blanks(l) && AllBlank(b)
    requires forall i :: 0 <= i < |items| ==> Ordered(items[i]) && AllPlain(items[i])
    ensures ParseItems(b + (PrintItems(items, l) + ("]" + rest)), sofar)
            == Done(Array(sofar + RoundedItems(items)), rest)
    decreases items, 0
  {
    hide ParseItems, Print, RoundedValue, Ordered, AllPlain;
    var v := items[0];
    if |items| == 1 {
      assert PrintItems(items, l) + ("]" + rest) == Print(v, l) + ("]" + rest);
      LastItemBack(v, l, b, sofar, rest);
      assert RoundedItems(items) == [RoundedValue(v)];
    } else {
      var more := l.nextItem + (PrintItems(items[1..], l) + ("]" + rest));
      assert PrintItems(items, l) + ("]" + rest) == Print(v, l) + (l.item + ("," + more));
      NextItemBack(v, l, b, sofar, more);
      ItemsBack(items[1..], l, l.nextItem, sofar + [RoundedValue(v)], rest);
      assert sofar + [RoundedValue(v)] + RoundedItems(items[1..]) == sofar + RoundedItems(items);
    }
  }

  lemma {:induction false} ArrayBack(items: seq<Json>, l: Layout, rest: string)
    requires Blanks(l)
    requires forall i :: 0 <= i < |items| ==> Ordered(items[i]) && AllPlain(items[i])
    ensures ParseValue(Print(Array(items), l) + rest) == Done(Array(RoundedItems(items)), rest)
    decreases items, 1
  {
    hide Ordered, AllPlain, ParseItems, PrintItems, RoundedValue;
    var t := Print(Array(items), l) + rest;
    if items == [] {
      assert t[1..] == "]" + rest;
      assert ("]" + rest)[1..] == rest;
    } else {
      var u := PrintItems(items, l) + ("]" + rest);
      assert t[1..] == u;
      ItemsStart(items, l);
      ItemsBack(items, l, "", [], rest);
      assert "" + u == u;
      assert [] + RoundedItems(items) == RoundedItems(items);
    }
  }

  /** The printed items start as the first of them does: with no blank and no bracket. */
  lemma ItemsStart(items: seq<Json>, l: Layout)
    requires items != []
    ensures PrintItems(items, l) != ""
    ensures !IsBlank(PrintItems(items, l)[0]) && PrintItems(items, l)[0] != ']'
  {
    hide Print;
    PrintStarts(items[0], l);
  }

  predicate GoodMember(m: Member)
  {
    Plain(m.key) && Ordered(m.value) && AllPlain(m.value)
  }

  /** A key and its colon. */
  lemma KeyBack(k: string, l: Layout, more: string)
    requires Plain(k) && Blanks(l)
    ensures ParseString(Quoted(k) + (l.colon + (":" + more))).Done?
    ensures var r := ParseString(Quoted(k) + (l.colon + (":" + more)));
            r.value == k && Skip(r.rest) == ":" + more
  {
    hide ParseString, Plain;
    StringRoundTripIff(k, l.colon + (":" + more));
    SkipBlanks(l.colon, ":" + more);
    assert Skip(":" + more) == ":" + more;
  }

  /** A printed member, its key, colon and value, before `tail`. */
  function PrintMember(m: Member, l: Layout, tail: string): string
  {
    Quoted(m.key) + (l.colon + (":" + (l.value + (Print(m.value, l) + tail))))
  }

  lemma {:induction false} MemberBack(m: Member, l: Layout, tail: string)
    requires GoodMember(m) && Blanks(l) && EndsNumber(tail)
    ensures ParseMember(PrintMember(m, l, tail)) == Done(RoundedMember(m), tail)
    decreases m, 1
  {
    hide ParseString, Plain, Print, ParseValue, RoundedValue, Ordered, AllPlain;
    var more := l.value + (Print(m.value, l) + tail);
    KeyBack(m.key, l, more);
    assert (":" + more)[1..] == more;
    ValueAfterBlanks(l.value, m.value, l, tail);
    ValueBack(m.value, l, tail);
  }

  /** The last member is put at the end of the object, its key being the greatest so far. */
  lemma {:induction false} LastMemberBack(m: Member, l: Layout, sofar: seq<Member>, rest: string)
    requires GoodMember(m) && Blanks(l)
    requires forall i :: 0 <= i < |sofar| ==> Less(sofar[i].key, m.key)
    ensures ParseMembers(PrintMember(m, l, l.close + ("}" + rest)), sofar)
            == Done(Object(sofar + [RoundedMember(m)]), rest)
    decreases m, 2
  {
    hide ParseMember, GoodMember, PrintMember, Less, Emplace, RoundedValue, Skip;
    BlankEnds(l.close, "}" + rest);
    MemberBack(m, l, l.close + ("}" + rest));
    EmplaceLast(sofar, RoundedMember(m));
    SkipMark(l.close, '}', rest);
  }

  lemma {:induction false} NextMemberBack(m: Member, l: Layout, sofar: seq<Member>, more: string)
    requires GoodMember(m) && Blanks(l)
    requires forall i :: 0 <= i < |sofar| ==> Less(sofar[i].key, m.key)
    ensures ParseMembers(PrintMember(m, l, "," + more), sofar)
            == ParseMembers(Skip(more), sofar + [RoundedMember(m)])
    decreases m, 2
  {
    hide ParseMember, GoodMember, PrintMember, Less, Emplace, RoundedValue, Skip;
    MemberBack(m, l, "," + more);
    EmplaceLast(sofar, RoundedMember(m));
    SkipMark("", ',', more);
    assert "" + ("," + more) == "," + more;
  }

  lemma {:induction false} MembersBack(members: seq<Member>, l: Layout, sofar: seq<Member>, rest: string)
    requires members != [] && Blanks(l)
    requires forall i :: 0 <= i < |members| ==> GoodMember(members[i])
    requires Ascending(Keys(sofar + members))
    ensures ParseMembers(PrintMembers(members, l) + (l.close + ("}" + rest)), sofar)
            == Done(Object(sofar + RoundedMembers(members)), rest)
    decreases members, 0
  {
    hide ParseMembers, GoodMember, Less, RoundedMember, Ascending, Skip, Print, Keys, PrintMembers, PrintMember;
    var end := l.close + ("}" + rest);
    var m := members[0];
    AboveSoFar(sofar, members);
    if |members| == 1 {
      OnePrinted(members, l, end);
      LastMemberBack(m, l, sofar, rest);
      assert RoundedMembers(members) == [RoundedMember(m)];
    } else {
      var tail := PrintMembers(members[1..], l) + end;
      MorePrinted(members, l, end);
      NextMemberBack(m, l, sofar, l.nextMember + tail);
      SkipBlanks(l.nextMember, tail);
      MembersStart(members[1..], l, end);
      NextSoFar(sofar, members);
      MembersBack(members[1..], l, sofar + [RoundedMember(m)], rest);
      assert sofar + [RoundedMember(m)] + RoundedMembers(members[1..]) == sofar + RoundedMembers(members);
    }
  }

  lemma OnePrinted(members: seq<Member>, l: Layout, end: string)
    requires |members| == 1
    ensures PrintMembers(members, l) + end == PrintMember(members[0], l, end)
  {
    hide Print;
  }

  lemma MorePrinted(members: seq<Member>, l: Layout, end: string)
    requires |members| > 1
    ensures PrintMembers(members, l) + end ==
      PrintMember(members[0], l, "," + (l.nextMember + (PrintMembers(members[1..], l) + end)))
  {
    hide Print;
  }

  lemma MembersStart(members: seq<Member>, l: Layout, end: string)
    requires members != []
    ensures PrintMembers(members, l) != "" && PrintMembers(members, l)[0] == '\"'
    ensures Skip(PrintMembers(members, l) + end) == PrintMembers(members, l) + end
  {
    hide Print;
  }

  lemma AboveSoFar(sofar: seq<Member>, members: seq<Member>)
    requires members != [] && Ascending(Keys(sofar + members))
    ensures forall i :: 0 <= i < |sofar| ==> Less(sofar[i].key, members[0].key)
  {
    var keys := Keys(sofar + members);
    forall i | 0 <= i < |sofar|
      ensures Less(sofar[i].key, members[0].key)
    {
      assert Less(keys[i], keys[|sofar|]);
    }
  }

  lemma NextSoFar(sofar: seq<Member>, members: seq<Member>)
    requires members != [] && Ascending(Keys(sofar + members))
    ensures Ascending(Keys(sofar + [RoundedMember(members[0])] + members[1..]))
  {
    assert Keys(sofar + [RoundedMember(members[0])] + members[1..]) == Keys(sofar + members);
  }

  lemma {:induction false} ObjectBack(members: seq<Member>, l: Layout, rest: string)
    requires Blanks(l) && Ascending(Keys(members))
    requires forall i :: 0 <= i < |members| ==> GoodMember(members[i])
    ensures ParseValue(Print(Object(members), l) + rest) == Done(Object(RoundedMembers(members)), rest)
    decreases members, 1
  {
    hide GoodMember, ParseMembers, PrintMembers, RoundedMember, Ascending;
    var t := Print(Object(members), l) + rest;
    if members == [] {
      assert t[1..] == "}" + rest;
      assert ("}" + rest)[1..] == rest;
    } else {
      var u := PrintMembers(members, l) + (l.close + ("}" + rest));
      assert t[1..] == l.open + u;
      SkipBlanks(l.open, u);
      MembersStart(members, l, l.close + ("}" + rest));
      assert [] + members == members;
      MembersBack(members, l, [], rest);
      assert [] + RoundedMembers(members) == RoundedMembers(members);
    }
  }

  // ---------------------------------------------------------------- what the parser can give

  /** Whatever is parsed holds plain strings only, and its keys ascend. */
  lemma {:induction false} ParsedIsPlain(t: string)
    requires ParseValue(t).Done?
    ensures AllPlain(ParseValue(t).value) && Ordered(ParseValue(t).value)
    decreases |t|, 0
  {
    hide StringBody, Plain, ParseNumber, ParseItems, ParseMembers, ParseString, Skip;
    var c := t[0];
    if c == '\"' {
      StringIsPlain(t);
    } else if c == '[' {
      if Skip(t[1..])[0] != ']' {
        ItemsArePlain(Skip(t[1..]), []);
      }
    } else if c == '{' {
      if Skip(t[1..])[0] != '}' {
        MembersArePlain(Skip(t[1..]), []);
      }
    } else if c != 't' && c != 'f' && c != 'n' {
      assert ParseValue(t) == ParseNumber(t);
      NumberIsNumber(t);
    }
  }

  lemma NumberIsNumber(t: string)
    requires ParseNumber(t).Done?
    ensures ParseNumber(t).value.Number?
  {}

  lemma StringIsPlain(t: string)
    requires ParseString(t).Done?
    ensures Plain(ParseString(t).value)
  {
    hide StringBody, Plain;
    BodyIsPlain(From(t, 1), "");
    assert ParseString(t).value[|""|..] == ParseString(t).value;
  }

  lemma {:induction false} ItemsArePlain(t: string, sofar: seq<Json>)
    requires forall v :: v in sofar ==> AllPlain(v) && Ordered(v)
    requires ParseItems(t, sofar).Done?
    ensures AllPlain(ParseItems(t, sofar).value) && Ordered(ParseItems(t, sofar).value)
    decreases |t|, 1
  {
    hide ParseValue, Skip;
    var v := ParseValue(Skip(t));
    ParsedIsPlain(Skip(t));
    var u := Skip(v.rest);
    if At(u) == ',' {
      ItemsArePlain(u[1..], sofar + [v.value]);
    }
  }

  predicate FineMembers(members: seq<Member>)
  {
    Ascending(Keys(members)) && forall m :: m in members ==> GoodMember(m)
  }

  lemma EmplaceFine(members: seq<Member>, m: Member)
    requires FineMembers(members) && GoodMember(m)
    ensures FineMembers(Emplace(members, m))
  {
    hide Ascending, GoodMember, Emplace, Keys;
    EmplaceAscending(members, m);
    EmplaceFrom(members, m);
  }

  lemma {:induction false} MemberIsPlain(t: string)
    requires ParseMember(t).Done?
    ensures GoodMember(ParseMember(t).value)
    decreases |t|, 0
  {
    hide ParseValue, Skip, ParseString, Plain, Ordered, AllPlain;
    StringIsPlain(t);
    ParsedIsPlain(Skip(Skip(ParseString(t).rest)[1..]));
  }

  lemma {:induction false} MembersArePlain(t: string, sofar: seq<Member>)
    requires FineMembers(sofar)
    requires ParseMembers(t, sofar).Done?
    ensures AllPlain(ParseMembers(t, sofar).value) && Ordered(ParseMembers(t, sofar).value)
    decreases |t|, 1
  {
    hide ParseMember, Skip, GoodMember, Emplace, FineMembers, Ordered, AllPlain;
    var m := ParseMember(t);
    MemberIsPlain(t);
    EmplaceFine(sofar, m.value);
    var members := Emplace(sofar, m.value);
    var u := Skip(m.rest);
    if At(u) == ',' {
      MembersArePlain(Skip(u[1..]), members);
    } else if At(u) == '}' {
      FineObject(members);
    } else {
      MembersArePlain(u, members);
    }
  }

  lemma FineObject(members: seq<Member>)
    requires FineMembers(members)
    ensures AllPlain(Object(members)) && Ordered(Object(members))
  {
    hide Ascending, Keys;
    forall i | 0 <= i < |members|
      ensures GoodMember(members[i])
    {
      assert members[i] in members;
    }
  }

  // ---------------------------------------------------------------- the round trip

  /** Every number in the value is the double nearest to some number of six decimals. */
  ghost predicate AllNearSix(v: Json)
  {
    match v
    case Number(x) => exists k: nat :: NearestTo(x, k)
    case Array(items) => forall i :: 0 <= i < |items| ==> AllNearSix(items[i])
    case Object(members) => forall i :: 0 <= i < |members| ==> AllNearSix(members[i].value)
    case _ => true
  }

  lemma {:induction false} SameValueIff(v: Json)
    ensures RoundedValue(v) == v <==> AllNearSix(v)
    decreases v
  {
    hide Reread, NearestTo;
    match v
    case Number(x) => RereadIff(x);
    case Array(items) => SameItemsIff(items);
    case Object(members) => SameMembersIff(members);
    case _ =>
  }

  lemma {:induction false} SameItemsIff(items: seq<Json>)
    ensures RoundedItems(items) == items <==> forall i :: 0 <= i < |items| ==> AllNearSix(items[i])
    decreases items
  {
    hide AllNearSix, RoundedValue;
    forall i | 0 <= i < |items|
      ensures RoundedItems(items)[i] == items[i] <==> AllNearSix(items[i])
    {
      SameValueIff(items[i]);
    }
  }

  lemma {:induction false} SameMembersIff(members: seq<Member>)
    ensures RoundedMembers(members) == members <==>
            forall i :: 0 <= i < |members| ==> AllNearSix(members[i].value)
    decreases members
  {
    hide AllNearSix, RoundedValue;
    forall i | 0 <= i < |members|
      ensures RoundedMembers(members)[i] == members[i] <==> AllNearSix(members[i].value)
    {
      SameValueIff(members[i].value);
    }
  }

  lemma {:induction false} RoundedTwice(v: Json)
    ensures RoundedValue(RoundedValue(v)) == RoundedValue(v)
    decreases v
  {
    hide Reread;
    match v
    case Number(x) => RereadTwice(x);
    case Array(items) =>
      forall i | 0 <= i < |items|
        ensures RoundedItems(RoundedItems(items))[i] == RoundedItems(items)[i]
      {
        RoundedTwice(items[i]);
      }
    case Object(members) =>
      forall i | 0 <= i < |members|
        ensures RoundedMembers(RoundedMembers(members))[i] == RoundedMembers(members)[i]
      {
        RoundedTwice(members[i].value);
      }
    case _ =>
  }

  /** A value comes back from its text exactly when its strings are plain and each of its numbers is the
      double nearest to a number of six decimals. */
  lemma RoundTripIff(v: Json, l: Layout, rest: string)
    requires Ordered(v) && Blanks(l) && EndsNumber(rest)
    ensures ParseValue(Print(v, l) + rest) == Done(v, rest) <==> AllPlain(v) && AllNearSix(v)
  {
    hide Ordered, AllPlain, AllNearSix, RoundedValue, ParseValue, Print;
    SameValueIff(v);
    if AllPlain(v) {
      ValueBack(v, l, rest);
    }
    if ParseValue(Print(v, l) + rest) == Done(v, rest) {
      ParsedIsPlain(Print(v, l) + rest);
    }
  }

  /** Once printed and parsed, a value no longer changes. */
  lemma SecondRoundTrip(v: Json, l: Layout, rest: string)
    requires Ordered(v) && AllPlain(v) && Blanks(l) && EndsNumber(rest)
    ensures ParseValue(Print(v, l) + rest).Done?
    ensures var w := ParseValue(Print(v, l) + rest).value; ParseValue(Print(w, l) + rest) == Done(w, rest)
  {
    hide Ordered, AllPlain, RoundedValue, ParseValue, Print;
    ValueBack(v, l, rest);
    ParsedIsPlain(Print(v, l) + rest);
    RoundedTwice(v);
    ValueBack(RoundedValue(v), l, rest);
  }
}
