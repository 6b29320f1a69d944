/** What the operators of WHERE mean, said by orders on numbers and texts and not by the functions that
    evaluate them. */
module Comparisons {
  import opened GoText
  import opened Layout
  import opened Query

  datatype Comparison = Less | Equal | Greater | Unordered

  /** Which operators are met by values that compare so. */
  predicate Accepts(op: string, c: Comparison) {
    match c
    case Less => op == "<" || op == "<=" || op == "!="
    case Equal => op == "=" || op == "<=" || op == ">="
    case Greater => op == ">" || op == ">=" || op == "!="
    case Unordered => op == "!="
  }

  predicate Below(a: Float, b: Float) {
    || (a.Num? && b.Num? && a.r < b.r)
    || (a.NegInf? && (b.Num? || b.PosInf?))
    || (a.Num? && b.PosInf?)
  }

  /** The first text is a proper prefix of the second, or smaller where they first differ. */
  ghost predicate Precedes(a: string, b: string) {
    exists k: nat | k <= |a| && k < |b| :: a[..k] == b[..k] && (k == |a| || a[k] < b[k])
  }

  ghost predicate NumbersCompare(a: Float, b: Float, c: Comparison) {
    match c
    case Less => Below(a, b)
    case Equal => a == b && a != NaN
    case Greater => Below(b, a)
    case Unordered => a == NaN || b == NaN
  }

  ghost predicate TextsCompare(a: string, b: string, c: Comparison) {
    match c
    case Less => Precedes(a, b)
    case Equal => a == b
    case Greater => Precedes(b, a)
    case Unordered => false
  }

  /** Integers are numbers, and so are texts that parse as one. */
  ghost predicate IsNumber(v: Value, floats: Floats, x: Float) {
    || (v.Int32? && x == Num(floats.ofInt(v.i)))
    || (v.Int64? && x == Num(floats.ofInt(v.l)))
    || (v.Text? && floats.parse(v.s) == Some(x))
  }

  predicate Numeric(v: Value, floats: Floats) {
    v.Int32? || v.Int64? || (v.Text? && floats.parse(v.s) != None)
  }

  /** A literal as text. */
  function Printed(v: Value): string {
    if v.Text? then v.s
    else if v.Bool? then (if v.b then "true" else "false")
    else if v.Int32? then Itoa(v.i)
    else if v.Int64? then Itoa(v.l)
    else "<nil>"
  }

  /** Two numbers compare as numbers; otherwise a text compares with the literal as text, and nothing else
      compares. */
  ghost predicate Compares(v: Value, c: Value, floats: Floats, how: Comparison) {
    if Numeric(v, floats) && Numeric(c, floats) then
      exists x, y :: IsNumber(v, floats, x) && IsNumber(c, floats, y) && NumbersCompare(x, y, how)
    else v.Text? && TextsCompare(v.s, Printed(c), how)
  }

  /** The meaning of `v op c`. NULL equals only NULL, and differs from everything else. */
  ghost predicate Related(v: Value, c: Value, op: string, floats: Floats) {
    if v == Null && c == Null then op == "="
    else if v == Null || c == Null then op == "!="
    else exists how: Comparison :: Compares(v, c, floats, how) && Accepts(op, how)
  }

  // ----- the order on texts -----

  lemma {:induction false} LessIsWitnessed(a: string, b: string, i: nat) returns (k: nat)
    requires i <= |a| && i <= |b| && a[..i] == b[..i] && StrLess(a, b, i)
    ensures k <= |a| && k < |b| && a[..k] == b[..k] && (k == |a| || a[k] < b[k])
    decreases |a| - i
  {
    k := i;
    if i < |a| && a[i] == b[i] {
      assert a[..i + 1] == a[..i] + [a[i]] && b[..i + 1] == b[..i] + [b[i]];
      k := LessIsWitnessed(a, b, i + 1);
    }
  }

  lemma {:induction false} WitnessIsLess(a: string, b: string, k: nat, i: nat)
    requires i <= k <= |a| && k < |b| && a[..k] == b[..k] && (k == |a| || a[k] < b[k])
    ensures StrLess(a, b, i)
    decreases k - i
  {
    if i < k {
      assert a[..k][i] == b[..k][i];
      WitnessIsLess(a, b, k, i + 1);
    }
  }

  lemma {:induction false} LessIsPrecedes(a: string, b: string)
    ensures StrLess(a, b, 0) <==> Precedes(a, b)
  {
    if StrLess(a, b, 0) {
      var k := LessIsWitnessed(a, b, 0);
    }
    if Precedes(a, b) {
      var k: nat :| k <= |a| && k < |b| && a[..k] == b[..k] && (k == |a| || a[k] < b[k]);
      WitnessIsLess(a, b, k, 0);
    }
  }

  // ----- operator by operator -----

  /** Two texts that are not both numbers, operator by operator. */
  lemma {:induction false} TextOperators(v: string, c: Value, floats: Floats)
    requires c != Null && !(Numeric(Text(v), floats) && Numeric(c, floats))
    ensures CompareValue(Text(v), c, "=", floats) <==> v == Printed(c)
    ensures CompareValue(Text(v), c, "!=", floats) <==> v != Printed(c)
    ensures CompareValue(Text(v), c, "<", floats) <==> Precedes(v, Printed(c))
    ensures CompareValue(Text(v), c, ">", floats) <==> Precedes(Printed(c), v)
    ensures CompareValue(Text(v), c, "<=", floats) <==> Precedes(v, Printed(c)) || v == Printed(c)
    ensures CompareValue(Text(v), c, ">=", floats) <==> Precedes(Printed(c), v) || v == Printed(c)
  {
    LessIsPrecedes(v, Printed(c));
    LessIsPrecedes(Printed(c), v);
  }

  /** Numbers, integers or texts that parse as numbers, operator by operator. */
  lemma {:induction false} NumberOperators(v: Value, c: Value, x: Float, y: Float, floats: Floats)
    requires IsNumber(v, floats, x) && IsNumber(c, floats, y)
    ensures CompareValue(v, c, "=", floats) <==> x == y && x != NaN
    ensures CompareValue(v, c, "!=", floats) <==> x != y || x == NaN
    ensures CompareValue(v, c, "<", floats) <==> Below(x, y)
    ensures CompareValue(v, c, ">", floats) <==> Below(y, x)
    ensures CompareValue(v, c, "<=", floats) <==> Below(x, y) || (x == y && x != NaN)
    ensures CompareValue(v, c, ">=", floats) <==> Below(y, x) || (x == y && x != NaN)
  {
  }

  /** NULL on either side, booleans in the table, and operators there are not. */
  lemma {:induction false} OtherComparisons(v: Value, c: Value, op: string, floats: Floats)
    ensures v == Null && c == Null ==> (CompareValue(v, c, op, floats) <==> op == "=")
    ensures v == Null && c != Null ==> (CompareValue(v, c, op, floats) <==> op == "!=")
    ensures v != Null && c == Null ==> (CompareValue(v, c, op, floats) <==> op == "!=")
    ensures v.Bool? && c != Null ==> !CompareValue(v, c, op, floats)
    ensures op != "=" && op != "!=" && op != "<" && op != ">" && op != "<=" && op != ">=" ==>
              !CompareValue(v, c, op, floats)
  {
  }

  // ----- together -----

  lemma {:induction false} NumbersRelate(v: Value, c: Value, op: string, floats: Floats, x: Float, y: Float)
    requires IsNumber(v, floats, x) && IsNumber(c, floats, y)
    ensures CompareValue(v, c, op, floats) <==> exists how: Comparison :: NumbersCompare(x, y, how) && Accepts(op, how)
  {
    NumberOperators(v, c, x, y, floats);
    OtherComparisons(v, c, op, floats);
    assert NumbersCompare(x, y, Less) || NumbersCompare(x, y, Equal) || NumbersCompare(x, y, Greater)
           || NumbersCompare(x, y, Unordered);
    forall how: Comparison | NumbersCompare(x, y, how) ensures CompareValue(v, c, op, floats) <==> Accepts(op, how) {
      NumbersRelateSo(v, c, op, floats, x, y, how);
    }
  }

  lemma {:induction false} NumbersRelateSo(v: Value, c: Value, op: string, floats: Floats, x: Float, y: Float,
                                           how: Comparison)
    requires IsNumber(v, floats, x) && IsNumber(c, floats, y) && NumbersCompare(x, y, how)
    ensures CompareValue(v, c, op, floats) <==> Accepts(op, how)
  {
    NumberOperators(v, c, x, y, floats);
    OtherComparisons(v, c, op, floats);
  }

  lemma {:induction false} TextsRelateSo(v: string, c: Value, op: string, floats: Floats, how: Comparison)
    requires c != Null && !(Numeric(Text(v), floats) && Numeric(c, floats)) && TextsCompare(v, Printed(c), how)
    ensures CompareValue(Text(v), c, op, floats) <==> Accepts(op, how)
  {
    TextOperators(v, c, floats);
    OtherComparisons(Text(v), c, op, floats);
    TextsAreOrdered(v, Printed(c));
  }

  /** Any two texts compare in one way. */
  lemma {:induction false} TextsAreOrdered(a: string, b: string)
    ensures Precedes(a, b) ==> a != b && !Precedes(b, a)
    ensures Precedes(a, b) || a == b || Precedes(b, a)
  {
    LessIsPrecedes(a, b);
    LessIsPrecedes(b, a);
    StringsAreOrdered(a, b, 0);
  }

  /** WHERE's comparison is exactly its meaning. */
  lemma {:induction false} ComparisonIsMeant(v: Value, c: Value, op: string, floats: Floats)
    ensures CompareValue(v, c, op, floats) <==> Related(v, c, op, floats)
  {
    OtherComparisons(v, c, op, floats);
    if v != Null && c != Null {
      if Numeric(v, floats) && Numeric(c, floats) {
        var x := TheNumber(v, floats);
        var y := TheNumber(c, floats);
        NumbersRelate(v, c, op, floats, x, y);
        forall how: Comparison ensures Compares(v, c, floats, how) <==> NumbersCompare(x, y, how) {
        }
      } else if v.Text? {
        TextsAreOrdered(v.s, Printed(c));
        assert TextsCompare(v.s, Printed(c), Less) || TextsCompare(v.s, Printed(c), Equal)
               || TextsCompare(v.s, Printed(c), Greater);
        forall how: Comparison | TextsCompare(v.s, Printed(c), how)
          ensures CompareValue(v, c, op, floats) <==> Accepts(op, how)
        {
          TextsRelateSo(v.s, c, op, floats, how);
        }
      }
    }
  }

  lemma {:induction false} TheNumber(v: Value, floats: Floats) returns (x: Float)
    requires Numeric(v, floats)
    ensures IsNumber(v, floats, x) && forall y :: IsNumber(v, floats, y) ==> y == x
  {
    x := if v.Int32? then Num(floats.ofInt(v.i))
         else if v.Int64? then Num(floats.ofInt(v.l))
         else floats.parse(v.s).value;
  }
}
