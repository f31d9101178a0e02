/** Comparisons, the conjunction a WHERE clause becomes, and what they mean. */
module Expressions {
  import opened Bytes
  import opened Options
  import opened Tuples
  import opened FloatValues

  datatype CondOp = UNDEFINED | NOT_EQ | EQ | GREATER | SMALLER | IS | IS_NOT | IN

  datatype ComparsionType = EQUAL | NOT_EQUAL | LESS_THAN | GREATER_THAN

  // ---------------------------------------------------------------- comparing two values

  /** `std::string::compare`, of which only the sign is used. */
  function CompareBytes(a: Data, b: Data): int
  {
    if a == [] then (if b == [] then 0 else -1)
    else if b == [] then 1
    else if a[0] < b[0] then -1
    else if b[0] < a[0] then 1
    else CompareBytes(a[1..], b[1..])
  }

  /** Two values of one type; of floats the difference must have an `int` it is converted to. */
  predicate Comparable(a: Value, b: Value)
  {
    match a
    case IntValue(_) => b.IntValue?
    case FloatValue(_) => b.FloatValue? && Difference(a.bits, b.bits).Some?
    case StringValue(_) => b.StringValue?
  }

  /** `Value::compare`: the difference of two longs is narrowed to int, that of floats cut to one. */
  function Compare(a: Value, b: Value): int
    requires Comparable(a, b)
  {
    match a
    case IntValue(n) => ToInt32(n - b.n)
    case FloatValue(bits) => Difference(bits, b.bits).value
    case StringValue(s) => CompareBytes(s, b.s)
  }

  /** `ComparsionExpression::evaluate` on the two operands: 1 for true, -1 for false. */
  function Verdict(op: ComparsionType, cmp: int): int
  {
    match op
    case EQUAL => if cmp != 0 then -1 else 1
    case NOT_EQUAL => if cmp == 0 then -1 else 1
    case LESS_THAN => if cmp >= 0 then -1 else 1
    case GREATER_THAN => if cmp <= 0 then -1 else 1
  }

  /** Dictionary order: a proper prefix, or smaller at the first place where they differ. */
  ghost predicate Before(a: Data, b: Data)
  {
    exists k: nat :: BeforeAt(a, b, k)
  }

  ghost predicate BeforeAt(a: Data, b: Data, k: nat)
  {
    k <= |a| && k < |b| && a[..k] == b[..k] && (k < |a| ==> a[k] < b[k])
  }

  ghost predicate IsLess(a: Value, b: Value)
    requires Comparable(a, b)
  {
    match a
    case IntValue(n) => n < b.n
    case FloatValue(bits) => Units(bits) < Units(b.bits)
    case StringValue(s) => Before(s, b.s)
  }

  /** Equal values; the two zeros among the floats are. */
  predicate IsSame(a: Value, b: Value)
    requires Comparable(a, b)
  {
    if a.FloatValue? then Units(a.bits) == Units(b.bits) else a == b
  }

  ghost predicate IsMore(a: Value, b: Value)
    requires Comparable(a, b)
  {
    match a
    case IntValue(n) => n > b.n
    case FloatValue(bits) => Units(bits) > Units(b.bits)
    case StringValue(s) => Before(b.s, s)
  }

  /** What the operator is meant to say about the operands. */
  ghost predicate Holds(op: ComparsionType, a: Value, b: Value)
    requires Comparable(a, b)
  {
    match op
    case EQUAL => IsSame(a, b)
    case NOT_EQUAL => !IsSame(a, b)
    case LESS_THAN => IsLess(a, b)
    case GREATER_THAN => IsMore(a, b)
  }

  lemma BeforeAtTail(a: Data, b: Data, k: nat)
    requires a != [] && b != [] && a[0] == b[0]
    ensures BeforeAt(a, b, k + 1) <==> BeforeAt(a[1..], b[1..], k)
  {
    if k + 1 <= |a| && k + 1 <= |b| {
      assert a[..k + 1] == [a[0]] + a[1..][..k];
      assert b[..k + 1] == [b[0]] + b[1..][..k];
      assert a[1..][..k] == a[..k + 1][1..];
      assert b[1..][..k] == b[..k + 1][1..];
    }
  }

  lemma BeforeTail(a: Data, b: Data)
    requires a != [] && b != [] && a[0] == b[0]
    ensures Before(a, b) <==> Before(a[1..], b[1..])
  {
    if Before(a, b) {
      var k: nat :| BeforeAt(a, b, k);
      assert k > 0;
      BeforeAtTail(a, b, k - 1);
    }
    if Before(a[1..], b[1..]) {
      var k: nat :| BeforeAt(a[1..], b[1..], k);
      BeforeAtTail(a, b, k);
    }
  }

  lemma BeforeHead(a: Data, b: Data)
    ensures a == [] ==> (Before(a, b) <==> b != [])
    ensures b == [] ==> !Before(a, b)
    ensures a != [] && b != [] && a[0] != b[0] ==> (Before(a, b) <==> a[0] < b[0])
  {
    if b != [] && (a == [] || a[0] < b[0]) {
      assert BeforeAt(a, b, 0);
    }
    if a != [] && b != [] && a[0] != b[0] {
      forall k: nat | 0 < k
        ensures !BeforeAt(a, b, k)
      {
        if k <= |a| && k <= |b| {
          assert a[..k][0] != b[..k][0];
        }
      }
    }
  }

  /** The sign of the string comparison is dictionary order. */
  lemma {:induction false} CompareBytesIs(a: Data, b: Data)
    ensures CompareBytes(a, b) < 0 <==> Before(a, b)
    ensures CompareBytes(a, b) == 0 <==> a == b
    ensures CompareBytes(a, b) > 0 <==> Before(b, a)
  {
    hide Before;
    BeforeHead(a, b);
    BeforeHead(b, a);
    if a != [] && b != [] && a[0] == b[0] {
      BeforeTail(a, b);
      BeforeTail(b, a);
      CompareBytesIs(a[1..], b[1..]);
      assert a == [a[0]] + a[1..] && b == [b[0]] + b[1..];
    }
  }

  /** The operands' true order is what `compare` computes: always for strings, for integers if their
      difference is an `int`, for floats if they are equal or, their difference rounded, at least 1
      apart. */
  predicate InRange(a: Value, b: Value)
    requires Comparable(a, b)
  {
    match a
    case IntValue(n) => IsInt32(n - b.n)
    case FloatValue(bits) => Units(bits) == Units(b.bits) || Apart(bits, b.bits)
    case StringValue(_) => true
  }

  lemma VerdictWhenInRange(op: ComparsionType, a: Value, b: Value)
    requires Comparable(a, b) && InRange(a, b)
    ensures Verdict(op, Compare(a, b)) == if Holds(op, a, b) then 1 else -1
  {
    hide Before, CompareBytes, Units, Finite, Cut, Apart;
    if a.StringValue? {
      CompareBytesIs(a.s, b.s);
    } else if a.FloatValue? {
      CutSign(a.bits, b.bits);
    }
  }

  /** All four operators are right exactly when the operands are in range. */
  lemma OperatorsRightIff(a: Value, b: Value)
    requires Comparable(a, b)
    requires a.IntValue? ==> IsInt32(a.n) && IsInt32(b.n)
    ensures (forall op :: Verdict(op, Compare(a, b)) == if Holds(op, a, b) then 1 else -1) <==> InRange(a, b)
  {
    hide Before, CompareBytes, Units, Finite, Cut, Apart;
    if InRange(a, b) {
      forall op
        ensures Verdict(op, Compare(a, b)) == if Holds(op, a, b) then 1 else -1
      {
        VerdictWhenInRange(op, a, b);
      }
    } else {
      if a.FloatValue? {
        CutSign(a.bits, b.bits);
      }
      var op := if a.IntValue? then LESS_THAN else EQUAL;
      assert Verdict(op, Compare(a, b)) != if Holds(op, a, b) then 1 else -1;
    }
  }

  ghost predicate FloatHolds(op: ComparsionType, a: Data, b: Data)
  {
    match op
    case EQUAL => Units(a) == Units(b)
    case NOT_EQUAL => Units(a) != Units(b)
    case LESS_THAN => Units(a) < Units(b)
    case GREATER_THAN => Units(a) > Units(b)
  }

  /** What a float comparison answers; None where the conversion to `int` has no result. */
  function FloatVerdict(op: ComparsionType, a: Data, b: Data): Option<int>
  {
    var d := Difference(a, b);
    if d.Some? then Some(Verdict(op, d.value)) else None
  }

  /** On finite floats all four operators are right exactly when the operands are equal, or their rounded
      difference is at least 1 and, cut to an integer, an `int`. */
  lemma FloatOperatorsRightIff(a: Data, b: Data)
    requires Finite(a) && Finite(b)
    ensures (forall op :: FloatVerdict(op, a, b) == Some(if FloatHolds(op, a, b) then 1 else -1)) <==>
            Units(a) == Units(b) || (Apart(a, b) && IsInt32(Cut(a, b)))
  {
    hide Units, Finite, Cut, Apart;
    CutSign(a, b);
    if Difference(a, b).Some? {
      assert FloatVerdict(EQUAL, a, b) == Some(Verdict(EQUAL, Difference(a, b).value));
    } else {
      assert FloatVerdict(EQUAL, a, b) == None;
    }
  }

  // ---------------------------------------------------------------- conditions on a row

  datatype Operand = ColumnRef(idx: nat) | Constant(v: Value)

  datatype Condition = Condition(left: Operand, op: ComparsionType, right: Operand)

  function Evaluate(e: Operand, row: Data, cols: seq<Column>): Option<Value>
  {
    match e
    case ColumnRef(i) => if i < |cols| then ValueAt(row, cols, i) else None
    case Constant(v) => Some(v)
  }

  /** Both operands have a value and `compare` accepts them. */
  predicate CanCompare(c: Condition, row: Data, cols: seq<Column>)
  {
    var l := Evaluate(c.left, row, cols);
    var r := Evaluate(c.right, row, cols);
    l.Some? && r.Some? && Comparable(l.value, r.value)
  }

  function EvaluateCondition(c: Condition, row: Data, cols: seq<Column>): (v: int)
    requires CanCompare(c, row, cols)
    ensures v == 1 || v == -1
  {
    Verdict(c.op, Compare(Evaluate(c.left, row, cols).value, Evaluate(c.right, row, cols).value))
  }

  /** What the condition is meant to say about the row. */
  ghost predicate Satisfies(row: Data, cols: seq<Column>, c: Condition)
    requires CanCompare(c, row, cols)
  {
    Holds(c.op, Evaluate(c.left, row, cols).value, Evaluate(c.right, row, cols).value)
  }

  /** `FilterExpression::evaluate`: stop at the first condition that is false. */
  method EvaluateFilter(conds: seq<Condition>, row: Data, cols: seq<Column>) returns (v: int)
    requires forall i :: 0 <= i < |conds| ==> CanCompare(conds[i], row, cols)
    ensures v == 1 || v == -1
    ensures v == 1 <==> forall i :: 0 <= i < |conds| ==> EvaluateCondition(conds[i], row, cols) == 1
  {
    v := 1;
    var i := 0;
    while i < |conds|
      invariant i <= |conds| && v == 1
      invariant forall j :: 0 <= j < i ==> EvaluateCondition(conds[j], row, cols) == 1
    {
      v := EvaluateCondition(conds[i], row, cols);
      if v == -1 {
        return;
      }
      i := i + 1;
    }
  }
}
