/** The JSON writer, appending to a buffer. */
module JsonWriters {
  import opened Decimals
  import opened JsonText

  class Writer {
    var out: string

    constructor ()
      ensures out == ""
    {
      out := "";
    }

    method PrintValue(v: Json)
      modifies this
      ensures out == old(out) + Print(v, PRETTY)
      decreases v, 1
    {
      hide PrintNumber, PrintItems, PrintMembers;
      match v
      case Null => out := out + "null";
      case Bool(b) => out := out + if b then "true" else "false";
      case Number(x) => out := out + PrintNumber(x);
      case String(s) =>
        out := out + "\"";
        out := out + s;
        out := out + "\"";
      case Array(items) => PrintArray(v);
      case Object(members) => PrintObject(v);
    }

    method PrintArray(v: Json)
      requires v.Array?
      modifies this
      ensures out == old(out) + Print(v, PRETTY)
      decreases v, 0
    {
      hide PrintItems, PrintNumber, PrintMembers, ItemsLeft;
      var a := v.items;
      if |a| == 0 {
        out := out + "[]";
        return;
      }
      out := out + "[";
      ghost var start := out;
      AllItems(a);
      for i := 0 to |a|
        invariant out + ItemsLeft(a, i) == start + PrintItems(a, PRETTY)
      {
        hide *;
        NextItem(a, i);
        PrintValue(a[i]);
        if i != |a| - 1 {
          out := out + " , ";
        }
      }
      assert out == start + PrintItems(a, PRETTY);
      out := out + "]";
    }

    method PrintObject(v: Json)
      requires v.Object?
      modifies this
      ensures out == old(out) + Print(v, PRETTY)
      decreases v, 0
    {
      hide Print, PrintMembers, MembersLeft;
      var o := v.members;
      ObjectPrinted(o);
      if |o| == 0 {
        out := out + "{}";
        return;
      }
      out := out + "{\n";
      ghost var start := out;
      AllMembers(o);
      for i := 0 to |o|
        invariant out + MembersLeft(o, i) == start + PrintMembers(o, PRETTY)
      {
        hide *;
        NextMember(o, i);
        out := out + "\"";
        out := out + o[i].key;
        out := out + "\" : ";
        PrintValue(o[i].value);
        if i != |o| - 1 {
          out := out + ", \n";
        }
      }
      assert out == start + PrintMembers(o, PRETTY);
      out := out + "\n}";
    }
  }

  function ItemsLeft(a: seq<Json>, i: nat): string
    requires i <= |a|
  {
    if i < |a| then PrintItems(a[i..], PRETTY) else ""
  }

  lemma AllItems(a: seq<Json>)
    requires a != []
    ensures ItemsLeft(a, 0) == PrintItems(a, PRETTY)
    ensures ItemsLeft(a, |a|) == ""
  {
    hide PrintItems;
    assert a[0..] == a;
  }

  lemma NextItem(a: seq<Json>, i: nat)
    requires i < |a|
    ensures ItemsLeft(a, i) ==
            Print(a[i], PRETTY) + ((if i != |a| - 1 then " , " else "") + ItemsLeft(a, i + 1))
    ensures ItemsLeft(a, |a|) == ""
  {
    hide Print;
    assert a[i..][1..] == a[i + 1..];
    assert " " + "," + " " == " , ";
  }

  function MembersLeft(o: seq<Member>, i: nat): string
    requires i <= |o|
  {
    if i < |o| then PrintMembers(o[i..], PRETTY) else ""
  }

  lemma AllMembers(o: seq<Member>)
    requires o != []
    ensures MembersLeft(o, 0) == PrintMembers(o, PRETTY)
    ensures MembersLeft(o, |o|) == ""
  {
    hide PrintMembers;
    assert o[0..] == o;
  }

  lemma ObjectPrinted(o: seq<Member>)
    ensures Print(Object(o), PRETTY) == if o == [] then "{}" else "{\n" + (PrintMembers(o, PRETTY) + "\n}")
  {
    hide PrintMembers;
    if o != [] {
      var x := PrintMembers(o, PRETTY);
      assert "{" + PRETTY.open + x + PRETTY.close + "}" == "{\n" + (x + "\n}");
    }
  }

  lemma QuotedKey(k: string)
    ensures Quoted(k) + PRETTY.colon + ":" + PRETTY.value == "\"" + (k + "\" : ")
  {}

  lemma Regroup(k: string, p: string, rest: string)
    ensures "\"" + (k + "\" : ") + p + rest == "\"" + (k + ("\" : " + (p + rest)))
  {}

  lemma AfterMember(o: seq<Member>, i: nat)
    requires i < |o|
    ensures MembersLeft(o, i) ==
            "\"" + (o[i].key + "\" : ") + Print(o[i].value, PRETTY)
            + if i == |o| - 1 then "" else "," + PRETTY.nextMember + MembersLeft(o, i + 1)
  {
    hide Print, Quoted;
    QuotedKey(o[i].key);
    assert o[i..][1..] == o[i + 1..];
  }

  lemma NextMember(o: seq<Member>, i: nat)
    requires i < |o|
    ensures MembersLeft(o, i) ==
            "\"" + (o[i].key + ("\" : "
            + (Print(o[i].value, PRETTY) + ((if i != |o| - 1 then ", \n" else "") + MembersLeft(o, i + 1)))))
    ensures MembersLeft(o, |o|) == ""
  {
    hide Print, PrintMembers;
    AfterMember(o, i);
    assert "," + PRETTY.nextMember == ", \n";
    Regroup(o[i].key, Print(o[i].value, PRETTY),
            (if i != |o| - 1 then ", \n" else "") + MembersLeft(o, i + 1));
  }
}
