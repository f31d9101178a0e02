/** JSON values, and the text the writer produces for them. */
module JsonText {
  import opened Decimals
  import opened Floats
  import opened Doubles

  datatype Member = Member(key: string, value: Json)

  /** A number is a double; object members are listed in the order of their keys, as a `std::map` keeps
      them. */
  datatype Json =
    | Null
    | Bool(b: bool)
    | Number(x: Double)
    | String(s: string)
    | Array(items: seq<Json>)
    | Object(members: seq<Member>)

  // ---------------------------------------------------------------- numbers

  const PLACES: nat := 6
  const MILLION: nat := 1000000

  lemma PlacesMillion()
    ensures PLACES == 6 && MILLION == 1000000 && Pow10(PLACES) == MILLION
  {
    assert Pow10(3) == 1000;
    assert Pow10(4) == 10 * Pow10(3) && Pow10(5) == 10 * Pow10(4) && Pow10(6) == 10 * Pow10(5);
  }

  /** `x` in millionths, to the nearest, ties to even: what "%f" rounds to. */
  function Millionths(x: real): (n: nat)
    requires x >= 0.0
    ensures (n as real - x * 1000000.0) <= 0.5 && (x * 1000000.0 - n as real) <= 0.5
  {
    RoundEven(x * 1000000.0)
  }

  /** The number with six decimals that is printed for `x`. */
  function Rounded(x: real): real
  {
    Signed(x < 0.0, Millionths(Magnitude(x)) as real / 1000000.0)
  }

  predicate HasSixDecimals(x: real)
  {
    (x * 1000000.0).Floor as real == x * 1000000.0
  }

  lemma MillionthsExactIff(a: real)
    requires a >= 0.0
    ensures Millionths(a) as real == a * 1000000.0 <==> HasSixDecimals(a)
  {}

  lemma SixDecimalsOfMagnitude(x: real)
    ensures HasSixDecimals(Magnitude(x)) <==> HasSixDecimals(x)
  {
    var y := x * 1000000.0;
    assert -x * 1000000.0 == -y;
    if y == y.Floor as real {
      assert -y == (-y.Floor) as real;
    }
    if -y == (-y).Floor as real {
      assert y == (-(-y).Floor) as real;
    }
  }

  /** Exactly the numbers with at most six decimals are printed exactly. */
  lemma RoundedExactIff(x: real)
    ensures Rounded(x) == x <==> HasSixDecimals(x)
  {
    hide Millionths, HasSixDecimals;
    MillionthsExactIff(Magnitude(x));
    SixDecimalsOfMagnitude(x);
  }

  /** `std::to_string(double)` */
  function PrintNumber(x: real): string
  {
    var n := Millionths(Magnitude(x));
    PlacesMillion();
    (if x < 0.0 then "-" else "") + Digits(n / MILLION) + "." + Padded(n % MILLION, PLACES)
  }

  // ---------------------------------------------------------------- printing

  /** The blanks the writer puts around the structural characters. */
  datatype Layout = Layout(item: string, nextItem: string, open: string, colon: string,
                           value: string, nextMember: string, close: string)

  const PRETTY := Layout(" ", " ", "\n", " ", " ", " \n", "\n")
  const COMPACT := Layout("", "", "", "", "", "", "")

  function Quoted(s: string): string
  {
    "\"" + s + "\""
  }

  function Print(v: Json, l: Layout): string
    decreases v
  {
    match v
    case Null => "null"
    case Bool(b) => if b then "true" else "false"
    case Number(x) => PrintNumber(x)
    case String(s) => Quoted(s)
    case Array(items) => if items == [] then "[]" else "[" + PrintItems(items, l) + "]"
    case Object(members) =>
      if members == [] then "{}" else "{" + l.open + PrintMembers(members, l) + l.close + "}"
  }

  function PrintItems(items: seq<Json>, l: Layout): string
    requires items != []
    decreases items
  {
    Print(items[0], l)
    + if |items| == 1 then "" else l.item + "," + l.nextItem + PrintItems(items[1..], l)
  }

  function PrintMembers(members: seq<Member>, l: Layout): string
    requires members != []
    decreases members
  {
    Quoted(members[0].key) + l.colon + ":" + l.value + Print(members[0].value, l)
    + if |members| == 1 then "" else "," + l.nextMember + PrintMembers(members[1..], l)
  }
}
