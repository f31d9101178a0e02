/** A schema as JSON, and its way through a file. */
module Schemas {
  import opened Bytes
  import opened Options
  import opened Tuples
  import opened Floats
  import opened Doubles
  import opened Decimals
  import opened JsonText
  import opened JsonNumbers
  import opened JsonParser
  import opened JsonPieces
  import opened JsonRoundTrip
  import opened JsonFiles

  /** The numbers of the enumerators. */
  function TypeCode(c: ColumnType): (n: SizeT)
    ensures n < 5
  {
    match c
    case INT => 0
    case FLOAT => 1
    case VARCHAR => 2
    case CHAR => 3
    case UNKNOWN => 4
  }

  /** None for a number that is no enumerator's. */
  function TypeFromCode(n: int): Option<ColumnType>
  {
    match n
    case 0 => Some(INT)
    case 1 => Some(FLOAT)
    case 2 => Some(VARCHAR)
    case 3 => Some(CHAR)
    case 4 => Some(UNKNOWN)
    case _ => None
  }

  lemma SizeInRange(n: SizeT)
    ensures !OutOfRange(n as real)
  {
    hide OutOfRange;
    WordIsPower();
    WholeNotOut(n, 64);
  }

  lemma WordIsPower()
    ensures WORD_LIMIT == Pow2(64)
  {
    assert Pow2(4) == 16;
    hide Pow2;
    PowSum(4, 4);
    PowSum(8, 8);
    PowSum(16, 16);
    PowSum(32, 32);
  }

  /** `(double)n` */
  function SizeToDouble(n: SizeT): Double
  {
    SizeInRange(n);
    ToDouble(n as real)
  }

  /** `Column::to_json`: the map puts the keys in order. */
  function ColumnToJson(c: Column): Json
  {
    Object([Member("name", String(c.name)),
            Member("size", Number(SizeToDouble(c.size))),
            Member("type", Number(SizeToDouble(TypeCode(c.colType))))])
  }

  function Find(members: seq<Member>, key: string): Option<Json>
  {
    if members == [] then None
    else if members[0].key == key then Some(members[0].value)
    else Find(members[1..], key)
  }

  /** A double cast to an integer. */
  function Truncated(x: real): int
  {
    if x >= 0.0 then x.Floor else -(-x).Floor
  }

  /** `Column::from_json`; None where the source asserts, or the size is no `size_t`. */
  function ColumnFromJson(v: Json): Option<Column>
  {
    if !v.Object? then None
    else
      var name, colType, size := Find(v.members, "name"), Find(v.members, "type"), Find(v.members, "size");
      if name.None? || colType.None? || size.None? then None
      else if !name.value.String? || !colType.value.Number? || !size.value.Number? then None
      else
        var code := TypeFromCode(Truncated(colType.value.x));
        var n := Truncated(size.value.x);
        if code.None? || !(0 <= n < WORD_LIMIT) then None else Some(Column(code.value, name.value.s, n))
  }

  function ColumnsToJson(cols: seq<Column>): seq<Json>
  {
    seq(|cols|, i requires 0 <= i < |cols| => ColumnToJson(cols[i]))
  }

  /** `Schema::to_json` */
  function SchemaToJson(cols: seq<Column>): Json
  {
    Object([Member("columns", Array(ColumnsToJson(cols)))])
  }

  function ColumnsFromJson(items: seq<Json>): Option<seq<Column>>
  {
    if items == [] then Some([])
    else
      var front, last := ColumnsFromJson(items[..|items| - 1]), ColumnFromJson(items[|items| - 1]);
      if front.None? || last.None? then None else Some(front.value + [last.value])
  }

  /** `Schema::from_json` on a schema without columns. */
  function SchemaFromJson(v: Json): Option<seq<Column>>
  {
    if !v.Object? then None
    else
      var items := Find(v.members, "columns");
      if items.None? || !items.value.Array? then None else ColumnsFromJson(items.value.items)
  }

  class Schema {
    var columns: seq<Column>

    constructor (cols: seq<Column>)
      ensures columns == cols
    {
      columns := cols;
    }

    method ToJson() returns (v: Json)
      ensures v == SchemaToJson(columns)
    {
      hide ColumnToJson;
      var cols: seq<Json> := [];
      for i := 0 to |columns|
        invariant |cols| == i && forall j :: 0 <= j < i ==> cols[j] == ColumnToJson(columns[j])
      {
        cols := cols + [ColumnToJson(columns[i])];
      }
      assert cols == ColumnsToJson(columns);
      v := Object([Member("columns", Array(cols))]);
    }

    /** The columns read are appended to those that are there. */
    method FromJson(v: Json) returns (ok: bool)
      modifies this
      ensures ok == SchemaFromJson(v).Some?
      ensures ok ==> columns == old(columns) + SchemaFromJson(v).value
    {
      hide ColumnFromJson, Find;
      if !v.Object? {
        return false;
      }
      var cols := Find(v.members, "columns");
      if cols.None? || !cols.value.Array? {
        return false;
      }
      var items := cols.value.items;
      for i := 0 to |items|
        invariant ColumnsFromJson(items[..i]).Some?
        invariant columns == old(columns) + ColumnsFromJson(items[..i]).value
      {
        assert items[..i + 1][..i] == items[..i];
        var c := ColumnFromJson(items[i]);
        if c.None? {
          StopsAt(items, i);
          return false;
        }
        columns := columns + [c.value];
      }
      assert items[..|items|] == items;
      ok := true;
    }
  }

  /** A column that cannot be read spoils the whole list. */
  lemma {:induction false} StopsAt(items: seq<Json>, i: nat)
    requires i < |items| && ColumnFromJson(items[i]).None?
    ensures ColumnsFromJson(items).None?
  {
    hide ColumnFromJson;
    if i < |items| - 1 {
      StopsAt(items[..|items| - 1], i);
    }
  }

  // ---------------------------------------------------------------- without the file

  /** The size of every column is a double: an integer below 2^53 times a power of two. */
  predicate SizesFit(cols: seq<Column>)
  {
    forall i :: 0 <= i < |cols| ==> Fits(cols[i].size, DOUBLE_LIMIT)
  }

  lemma SizeBackIff(n: SizeT)
    ensures Truncated(SizeToDouble(n)) == n <==> Fits(n, DOUBLE_LIMIT)
    ensures Truncated(SizeToDouble(n)) >= 0
    ensures n < DOUBLE_LIMIT ==> Fits(n, DOUBLE_LIMIT)
  {
    FitsBelow(n);
    hide OutOfRange, Fits, NearestDouble;
    SizeInRange(n);
    WholeToDouble(n);
    CutFits(SizeToDouble(n));
  }

  lemma CodeBack(c: ColumnType)
    ensures TypeFromCode(Truncated(SizeToDouble(TypeCode(c)))) == Some(c)
  {
    hide Fits, SizeToDouble;
    SizeBackIff(TypeCode(c));
  }

  lemma FindThree(a: Member, b: Member, c: Member)
    requires a.key != b.key && b.key != c.key && a.key != c.key
    ensures Find([a, b, c], a.key) == Some(a.value)
    ensures Find([a, b, c], b.key) == Some(b.value)
    ensures Find([a, b, c], c.key) == Some(c.value)
  {
    assert [a, b, c][1..] == [b, c];
    assert [b, c][1..] == [c];
    assert Find([b, c], b.key) == Some(b.value);
    assert Find([b, c], c.key) == Find([c], c.key) == Some(c.value);
  }

  lemma KeysApart()
    ensures "name" != "size" && "size" != "type" && "name" != "type"
  {
    assert "name"[0] != "size"[0] && "size"[0] != "type"[0] && "type"[0] != "name"[0];
  }

  /** A column comes back from its JSON exactly when its size is a double. */
  lemma ColumnRoundTripIff(c: Column)
    ensures ColumnFromJson(ColumnToJson(c)) == Some(c) <==> Fits(c.size, DOUBLE_LIMIT)
  {
    hide Find, Fits, SizeToDouble, TypeFromCode;
    KeysApart();
    var ms := ColumnToJson(c).members;
    FindThree(ms[0], ms[1], ms[2]);
    SizeBackIff(c.size);
    CodeBack(c.colType);
  }

  /** The size 2^53 + 1 is lost. */
  lemma SizeLost(c: Column)
    requires c.size == 9007199254740993
    ensures ColumnFromJson(ColumnToJson(c)) != Some(c)
  {
    ColumnRoundTripIff(c);
    hide ColumnFromJson;
  }

  /** What is read as a column has a size that is a double. */
  lemma ReadSizeFits(v: Json)
    requires ColumnFromJson(v).Some?
    ensures Fits(ColumnFromJson(v).value.size, DOUBLE_LIMIT)
  {
    FitsBelow(0);
    hide Fits, Find;
    var size := Find(v.members, "size").value.x;
    if size >= 0.0 {
      CutFits(size);
    }
  }

  lemma {:induction false} ReadSizesFit(items: seq<Json>)
    requires ColumnsFromJson(items).Some?
    ensures SizesFit(ColumnsFromJson(items).value)
  {
    hide Fits, ColumnFromJson;
    if items != [] {
      ReadSizesFit(items[..|items| - 1]);
      ReadSizeFits(items[|items| - 1]);
    }
  }

  lemma {:induction false} ColumnsRoundTrip(cols: seq<Column>)
    requires SizesFit(cols)
    ensures ColumnsFromJson(ColumnsToJson(cols)) == Some(cols)
  {
    hide ColumnToJson, ColumnFromJson, Fits;
    if cols != [] {
      var n := |cols| - 1;
      ColumnsRoundTrip(cols[..n]);
      ColumnRoundTripIff(cols[n]);
      assert ColumnsToJson(cols)[..n] == ColumnsToJson(cols[..n]);
      assert cols == cols[..n] + [cols[n]];
    }
  }

  /** A schema comes back from its JSON exactly when the sizes of its columns are doubles. */
  lemma SchemaRoundTripIff(cols: seq<Column>)
    ensures SchemaFromJson(SchemaToJson(cols)) == Some(cols) <==> SizesFit(cols)
  {
    hide ColumnsToJson, ColumnsFromJson, SizesFit;
    if SizesFit(cols) {
      ColumnsRoundTrip(cols);
    }
    if ColumnsFromJson(ColumnsToJson(cols)).Some? {
      ReadSizesFit(ColumnsToJson(cols));
    }
  }

  // ---------------------------------------------------------------- through the file

  function StripName(c: Column): Column
  {
    c.(name := Strip(c.name))
  }

  function StripNames(cols: seq<Column>): seq<Column>
  {
    seq(|cols|, i requires 0 <= i < |cols| => StripName(cols[i]))
  }

  predicate NamesPlain(cols: seq<Column>)
  {
    forall i :: 0 <= i < |cols| ==> Plain(cols[i].name)
  }

  predicate NamesNoSpace(cols: seq<Column>)
  {
    forall i :: 0 <= i < |cols| ==> NoSpace(cols[i].name)
  }

  lemma KeysInOrder()
    ensures Less("name", "size") && Less("size", "type") && Less("name", "type")
  {}

  lemma KeysAreFine()
    ensures Plain("name") && Plain("size") && Plain("type") && Plain("columns")
    ensures Strip("name") == "name" && Strip("size") == "size" && Strip("type") == "type"
    ensures Strip("columns") == "columns"
    ensures Less("name", "size") && Less("size", "type") && Less("name", "type")
  {
    hide Plain, Strip, Less;
    KeysInOrder();
    PlainWord("name");
    PlainWord("size");
    PlainWord("type");
    PlainWord("columns");
  }

  /** A word of lower-case letters. */
  lemma {:induction false} PlainWord(s: string)
    requires forall i :: 0 <= i < |s| ==> 'a' <= s[i] <= 'z'
    ensures Plain(s) && Strip(s) == s
  {
    hide Strip;
    StripNothing(s);
    if s != "" {
      PlainWord(s[1..]);
    }
  }

  lemma StripThree(a: Member, b: Member, c: Member)
    ensures StripValue(Object([a, b, c])) == Object([StripMember(a), StripMember(b), StripMember(c)])
  {
    hide StripMember;
    assert StripMembers([a, b, c]) == [StripMember(a), StripMember(b), StripMember(c)];
  }

  lemma StripColumn(c: Column)
    ensures StripValue(ColumnToJson(c)) == ColumnToJson(StripName(c))
  {
    hide Strip;
    KeysAreFine();
    var ms := ColumnToJson(c).members;
    StripThree(ms[0], ms[1], ms[2]);
  }

  lemma StripColumns(cols: seq<Column>)
    ensures StripItems(ColumnsToJson(cols)) == ColumnsToJson(StripNames(cols))
  {
    hide StripValue, ColumnToJson;
    forall i | 0 <= i < |cols|
      ensures StripItems(ColumnsToJson(cols))[i] == ColumnsToJson(StripNames(cols))[i]
    {
      StripColumn(cols[i]);
    }
  }

  lemma StripSchema(cols: seq<Column>)
    ensures StripValue(SchemaToJson(cols)) == SchemaToJson(StripNames(cols))
  {
    hide Strip, ColumnsToJson, StripItems;
    KeysAreFine();
    StripColumns(cols);
    var ms := SchemaToJson(cols).members;
    assert StripMembers(ms) == [StripMember(ms[0])];
  }

  lemma RoundThree(a: Member, b: Member, c: Member)
    ensures RoundedValue(Object([a, b, c])) == Object([RoundedMember(a), RoundedMember(b), RoundedMember(c)])
  {
    hide RoundedMember;
    assert RoundedMembers([a, b, c]) == [RoundedMember(a), RoundedMember(b), RoundedMember(c)];
  }

  lemma RoundInteger(key: string, n: SizeT)
    ensures RoundedMember(Member(key, Number(SizeToDouble(n)))) == Member(key, Number(SizeToDouble(n)))
  {
    hide Reread, OutOfRange, NearestDouble, Whole, Fits;
    SizeInRange(n);
    WholeToDouble(n);
    WholeReread(SizeToDouble(n));
  }

  lemma RoundColumn(c: Column)
    ensures RoundedValue(ColumnToJson(c)) == ColumnToJson(c)
  {
    var ms := ColumnToJson(c).members;
    RoundThree(ms[0], ms[1], ms[2]);
    RoundInteger("size", c.size);
    RoundInteger("type", TypeCode(c.colType));
    hide RoundedValue, Reread;
    assert RoundedMember(ms[0]) == ms[0] by { StringUnrounded(c.name); }
  }

  lemma StringUnrounded(s: string)
    ensures RoundedMember(Member("name", String(s))) == Member("name", String(s))
  {}

  lemma OrderedThree(a: Member, b: Member, c: Member)
    requires Less(a.key, b.key) && Less(b.key, c.key) && Less(a.key, c.key)
    requires Ordered(a.value) && Ordered(b.value) && Ordered(c.value)
    ensures Ordered(Object([a, b, c]))
  {
    hide Less;
    assert Keys([a, b, c]) == [a.key, b.key, c.key];
  }

  lemma PlainThree(a: Member, b: Member, c: Member)
    ensures AllPlain(Object([a, b, c])) <==>
            && Plain(a.key) && AllPlain(a.value) && Plain(b.key) && AllPlain(b.value)
            && Plain(c.key) && AllPlain(c.value)
  {
    hide Plain;
    var ms := [a, b, c];
    if AllPlain(Object(ms)) {
      assert AllPlain(ms[0].value) && AllPlain(ms[1].value) && AllPlain(ms[2].value);
    }
  }

  /** The JSON of a column is in order, and plain if its name is. */
  lemma ColumnJsonFine(c: Column)
    ensures Ordered(ColumnToJson(c))
    ensures AllPlain(ColumnToJson(c)) <==> Plain(c.name)
  {
    hide Less, Plain;
    KeysAreFine();
    var ms := ColumnToJson(c).members;
    OrderedThree(ms[0], ms[1], ms[2]);
    PlainThree(ms[0], ms[1], ms[2]);
  }

  lemma ColumnsJsonFine(cols: seq<Column>)
    ensures Ordered(Array(ColumnsToJson(cols)))
    ensures RoundedItems(ColumnsToJson(cols)) == ColumnsToJson(cols)
    ensures AllPlain(Array(ColumnsToJson(cols))) <==> NamesPlain(cols)
  {
    hide Plain, ColumnToJson, RoundedValue;
    forall i | 0 <= i < |cols|
      ensures Ordered(ColumnsToJson(cols)[i])
      ensures RoundedValue(ColumnsToJson(cols)[i]) == ColumnsToJson(cols)[i]
      ensures AllPlain(ColumnsToJson(cols)[i]) <==> Plain(cols[i].name)
    {
      ColumnJsonFine(cols[i]);
      RoundColumn(cols[i]);
    }
    if AllPlain(Array(ColumnsToJson(cols))) {
      forall i | 0 <= i < |cols|
        ensures Plain(cols[i].name)
      {
        assert AllPlain(ColumnsToJson(cols)[i]);
      }
    }
  }

  /** An object with one member. */
  lemma RoundOne(m: Member)
    ensures RoundedValue(Object([m])) == Object([RoundedMember(m)])
  {
    hide RoundedMember;
    assert RoundedMembers([m]) == [RoundedMember(m)];
  }

  lemma OrderedOne(m: Member)
    ensures Ordered(Object([m])) <==> Ordered(m.value)
    ensures AllPlain(Object([m])) <==> Plain(m.key) && AllPlain(m.value)
  {
    hide Plain, Less;
    var ms := [m];
    if Ordered(Object(ms)) {
      assert Ordered(ms[0].value);
    }
    if AllPlain(Object(ms)) {
      assert AllPlain(ms[0].value);
    }
  }

  lemma RoundArray(key: string, items: seq<Json>)
    ensures RoundedMember(Member(key, Array(items))) == Member(key, Array(RoundedItems(items)))
  {
    hide RoundedItems;
  }

  lemma SchemaJsonFine(cols: seq<Column>)
    ensures Ordered(SchemaToJson(cols)) && RoundedValue(SchemaToJson(cols)) == SchemaToJson(cols)
    ensures AllPlain(SchemaToJson(cols)) <==> NamesPlain(cols)
  {
    hide ColumnsToJson, NamesPlain, Plain, Ordered, AllPlain, RoundedValue, RoundedMember, RoundedItems;
    KeysAreFine();
    ColumnsJsonFine(cols);
    var m := SchemaToJson(cols).members[0];
    RoundOne(m);
    OrderedOne(m);
    RoundArray(m.key, ColumnsToJson(cols));
  }

  /** The columns of a parsed file have plain names. */
  lemma {:induction false} ReadNamesPlain(items: seq<Json>)
    requires forall i :: 0 <= i < |items| ==> AllPlain(items[i])
    requires ColumnsFromJson(items).Some?
    ensures NamesPlain(ColumnsFromJson(items).value)
  {
    hide Plain, AllPlain, ColumnFromJson;
    if items != [] {
      ReadNamesPlain(items[..|items| - 1]);
      ReadNamePlain(items[|items| - 1]);
    }
  }

  lemma ReadNamePlain(v: Json)
    requires AllPlain(v) && ColumnFromJson(v).Some?
    ensures Plain(ColumnFromJson(v).value.name)
  {
    hide Plain;
    FoundPlain(v.members, "name");
  }

  lemma {:induction false} FoundPlain(members: seq<Member>, key: string)
    requires forall i :: 0 <= i < |members| ==> AllPlain(members[i].value)
    requires Find(members, key).Some?
    ensures AllPlain(Find(members, key).value)
  {
    hide AllPlain;
    if members[0].key != key {
      FoundPlain(members[1..], key);
    }
  }

  lemma ReadSchemaPlain(v: Json)
    requires AllPlain(v) && SchemaFromJson(v).Some?
    ensures NamesPlain(SchemaFromJson(v).value)
  {
    hide ColumnsFromJson, NamesPlain, Plain;
    FoundPlain(v.members, "columns");
    ReadNamesPlain(Find(v.members, "columns").value.items);
  }

  /** The schema that is read from the file a schema is written to. */
  function ReadSchema(cols: seq<Column>, junk: char): Option<seq<Column>>
  {
    var v := ReadBack(SchemaToJson(cols), junk);
    if v.Fail? then None else SchemaFromJson(v.value)
  }

  /** When the names are plain without their white space, the schema is read from its JSON with such
      names. */
  lemma ReadSchemaStrips(cols: seq<Column>, junk: char)
    requires NamesPlain(StripNames(cols))
    ensures ReadSchema(cols, junk) == SchemaFromJson(SchemaToJson(StripNames(cols)))
  {
    hide ReadBack, NamesPlain, StripNames, SchemaFromJson, Ordered, AllPlain, RoundedValue, StripValue;
    var v := SchemaToJson(cols);
    StripSchema(cols);
    SchemaJsonFine(StripNames(cols));
    ReadBackRounds(v, junk);
  }

  lemma StripNamesIff(cols: seq<Column>)
    ensures NamesNoSpace(cols) <==> StripNames(cols) == cols
    ensures NamesPlain(cols) ==> NamesPlain(StripNames(cols))
  {
    hide Plain, Strip, NoSpace;
    forall i | 0 <= i < |cols|
      ensures Strip(cols[i].name) == cols[i].name <==> NoSpace(cols[i].name)
      ensures Plain(cols[i].name) ==> Plain(Strip(cols[i].name))
    {
      StripNothing(cols[i].name);
      if Plain(cols[i].name) {
        StripKeepsPlain(cols[i].name);
      }
    }
    if StripNames(cols) == cols {
      assert forall i :: 0 <= i < |cols| ==> StripNames(cols)[i] == cols[i];
    }
  }

  lemma StripNamesSizes(cols: seq<Column>)
    ensures SizesFit(StripNames(cols)) <==> SizesFit(cols)
  {
    hide Fits;
    assert forall i :: 0 <= i < |cols| ==> StripNames(cols)[i].size == cols[i].size;
  }

  /** A schema survives its file exactly when its names are plain and hold no white space and its sizes
      are doubles. */
  lemma SchemaFileIff(cols: seq<Column>, junk: char)
    ensures ReadSchema(cols, junk) == Some(cols) <==>
            NamesPlain(cols) && NamesNoSpace(cols) && SizesFit(cols)
  {
    hide ReadBack, SchemaToJson, SchemaFromJson, NamesPlain, NamesNoSpace, StripNames, SizesFit, AllPlain;
    StripNamesIff(cols);
    StripNamesSizes(cols);
    if NamesPlain(cols) {
      ReadSchemaStrips(cols, junk);
      SchemaRoundTripIff(StripNames(cols));
      if SchemaFromJson(SchemaToJson(StripNames(cols))).Some? {
        ReadSchemaFits(SchemaToJson(StripNames(cols)));
      }
    } else if ReadSchema(cols, junk) == Some(cols) {
      var v := SchemaToJson(cols);
      ObjectJson(cols);
      ReadBackPlain(v, junk);
      ReadSchemaPlain(ReadBack(v, junk).value);
    }
  }

  lemma ObjectJson(cols: seq<Column>)
    ensures SchemaToJson(cols).Object?
  {}

  lemma ReadSchemaFits(v: Json)
    requires SchemaFromJson(v).Some?
    ensures SizesFit(SchemaFromJson(v).value)
  {
    hide ColumnsFromJson, SizesFit;
    ReadSizesFit(Find(v.members, "columns").value.items);
  }
}
