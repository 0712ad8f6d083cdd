/** Integer operations on 64-bit operands (src/devirt_ops.rs:42-75): exact, or an
    error. Division truncates toward zero. */
module IntOps {
  const Min: int := -0x8000_0000_0000_0000
  const Max: int := 0x7FFF_FFFF_FFFF_FFFF

  predicate Fits(v: int) {
    Min <= v <= Max
  }

  datatype Kind = Add | Sub | Mul | Div | Mod | Lt | Le | Gt | Ge | Eq | Ne

  datatype Out = Int(value: int) | Bool(truth: bool)

  datatype Result = Done(out: Out) | Overflow | DivisionByZero

  function Checked(v: int): Result {
    if Fits(v) then Done(Int(v)) else Overflow
  }

  function Abs(a: int): nat {
    if a >= 0 then a else -a
  }

  /** The machine's quotient and remainder. */
  function TruncDiv(a: int, b: int): int
    requires b != 0
  {
    if (a >= 0) == (b > 0) then Abs(a) / Abs(b) else -(Abs(a) / Abs(b))
  }

  function TruncMod(a: int, b: int): int
    requires b != 0
  {
    if a >= 0 then Abs(a) % Abs(b) else -(Abs(a) % Abs(b))
  }

  function IntBin(kind: Kind, a: int, b: int): Result
    requires Fits(a) && Fits(b)
  {
    match kind
    case Add => Checked(a + b)
    case Sub => Checked(a - b)
    case Mul => Checked(a * b)
    case Div =>
      if b == 0 then DivisionByZero
      else if b == -1 then Checked(-a)
      else Done(Int(TruncDiv(a, b)))
    case Mod =>
      if b == 0 then DivisionByZero
      else if b == -1 then Done(Int(0))
      else Done(Int(TruncMod(a, b)))
    case Lt => Done(Bool(a < b))
    case Le => Done(Bool(a <= b))
    case Gt => Done(Bool(a > b))
    case Ge => Done(Bool(a >= b))
    case Eq => Done(Bool(a == b))
    case Ne => Done(Bool(a != b))
  }

  /** Division as mathematics has it: the remainder is smaller than the divisor and,
      unless zero, has the sign of the dividend. */
  predicate IsDivision(a: int, b: int, q: int, r: int) {
    a == q * b + r && Abs(r) < Abs(b) && (r > 0 ==> a > 0) && (r < 0 ==> a < 0)
  }

  lemma NegatedProduct(m: int, b: int)
    ensures (-m) * b == -(m * b) && m * (-b) == -(m * b)
  {
  }

  lemma Euclid(x: nat, y: nat)
    requires y > 0
    ensures x == (x / y) * y + x % y && 0 <= x % y < y
  {
  }

  lemma SignedDivision(a: int, b: int, m: int, r: int)
    requires b != 0 && m >= 0 && r >= 0 && Abs(a) == m * Abs(b) + r && r < Abs(b)
    ensures IsDivision(a, b, if (a >= 0) == (b > 0) then m else -m, if a >= 0 then r else -r)
  {
    NegatedProduct(m, b);
  }

  lemma AbsPositive(b: int)
    ensures b != 0 ==> Abs(b) > 0
  {
  }

  lemma TruncIsDivision(a: int, b: int)
    requires b != 0
    ensures IsDivision(a, b, TruncDiv(a, b), TruncMod(a, b))
  {
    hide IsDivision, Abs;
    AbsPositive(b);
    var x, y := Abs(a), Abs(b);
    Euclid(x, y);
    SignedDivision(a, b, x / y, x % y);
  }

  lemma Grows(d: nat, y: nat)
    requires d > 0
    ensures d * y >= y
  {
    assert d * y == (d - 1) * y + y;
  }

  lemma AbsProduct(d: int, b: int)
    ensures Abs(d * b) == Abs(d) * Abs(b)
  {
    NegatedProduct(d, b);
    NegatedProduct(-d, b);
  }

  lemma SmallMultiple(d: int, b: int)
    requires Abs(d * b) < Abs(b)
    ensures d == 0
  {
    if d != 0 {
      Grows(Abs(d), Abs(b));
      AbsProduct(d, b);
    }
  }

  /** Quotient and remainder are determined by the law alone. */
  lemma DivisionUnique(a: int, b: int, q: int, r: int, q': int, r': int)
    requires b != 0 && IsDivision(a, b, q, r) && IsDivision(a, b, q', r')
    ensures q == q' && r == r'
  {
    assert (q - q') * b == r' - r;
    assert Abs(r' - r) < Abs(b);
    SmallMultiple(q - q', b);
  }

  lemma QuotientShrinks(x: nat, y: nat)
    requires y > 0
    ensures x / y <= x && x % y <= x && (y > 1 && x > 0 ==> x / y < x)
  {
    Euclid(x, y);
    if x / y > 0 {
      Grows(x / y, y - 1);
      if y > 1 {
        assert (x / y) * y == (x / y) * (y - 1) + x / y;
      }
    }
  }

  lemma QuotientBound(a: int, b: int)
    requires b != 0 && b != -1 && Fits(a)
    ensures Fits(TruncDiv(a, b)) && Fits(TruncMod(a, b))
  {
    QuotientShrinks(Abs(a), Abs(b));
    Euclid(Abs(a), Abs(b));
  }

  /** Division answers exactly the quotient of the law, raises on a zero divisor and
      overflows exactly when the quotient does not fit, which is the minimum by -1. */
  lemma DivExact(a: int, b: int, q: int)
    requires Fits(a) && Fits(b)
    ensures IntBin(Div, a, b) == DivisionByZero <==> b == 0
    ensures IntBin(Div, a, b) == Overflow <==> a == Min && b == -1
    ensures IntBin(Div, a, b) == Done(Int(q)) <==> Fits(q) && b != 0 && exists r :: IsDivision(a, b, q, r)
  {
    if b != 0 {
      TruncIsDivision(a, b);
      var q0, r0 := TruncDiv(a, b), TruncMod(a, b);
      if b == -1 {
        assert IsDivision(a, b, -a, 0);
        DivisionUnique(a, b, q0, r0, -a, 0);
      } else {
        QuotientBound(a, b);
      }
      if r :| IsDivision(a, b, q, r) {
        DivisionUnique(a, b, q, r, q0, r0);
      }
    }
  }

  /** The remainder never overflows, also for the minimum by -1. */
  lemma ModExact(a: int, b: int, r: int)
    requires Fits(a) && Fits(b)
    ensures IntBin(Mod, a, b) == DivisionByZero <==> b == 0
    ensures IntBin(Mod, a, b) == Done(Int(r)) <==> b != 0 && exists q :: IsDivision(a, b, q, r)
    ensures b != 0 ==> IntBin(Mod, a, b).Done? && IntBin(Mod, a, b).out.Int? && Fits(IntBin(Mod, a, b).out.value)
  {
    if b != 0 {
      TruncIsDivision(a, b);
      var q0, r0 := TruncDiv(a, b), TruncMod(a, b);
      if b == -1 {
        assert IsDivision(a, b, -a, 0);
        DivisionUnique(a, b, q0, r0, -a, 0);
      } else {
        QuotientBound(a, b);
      }
      if q :| IsDivision(a, b, q, r) {
        DivisionUnique(a, b, q, r, q0, r0);
      }
    }
  }

  /** When both succeed they belong together. */
  lemma DivModLaw(a: int, b: int, q: int, r: int)
    requires Fits(a) && Fits(b)
    ensures IntBin(Div, a, b) == Done(Int(q)) && IntBin(Mod, a, b) == Done(Int(r))
            <==> b != 0 && Fits(q) && IsDivision(a, b, q, r)
  {
    DivExact(a, b, q);
    ModExact(a, b, r);
    if b != 0 {
      if q', r' :| IsDivision(a, b, q, r') && IsDivision(a, b, q', r) {
        DivisionUnique(a, b, q, r', q', r);
      }
    }
  }

  /** The 64-bit two's-complement value of `v`. */
  function Wrapped(v: int): int {
    (v - Min) % 0x1_0000_0000_0000_0000 + Min
  }

  /** Where wrapping hardware would be wrong: a sum overflows exactly when both operands
      have one sign and the wrapped sum the other, a difference exactly when the
      operands differ in sign and the wrapped difference in sign from the first;
      otherwise the wrapped value is the answer. */
  lemma OverflowBySign(a: int, b: int)
    requires Fits(a) && Fits(b)
    ensures IntBin(Add, a, b) ==
              if (a < 0) == (b < 0) && (Wrapped(a + b) < 0) != (a < 0) then Overflow else Done(Int(Wrapped(a + b)))
    ensures IntBin(Sub, a, b) ==
              if (a < 0) != (b < 0) && (Wrapped(a - b) < 0) != (a < 0) then Overflow else Done(Int(Wrapped(a - b)))
  {
    WrapsOnce(a + b);
    WrapsOnce(a - b);
  }

  lemma WrapsOnce(v: int)
    requires 2 * Min <= v <= 2 * Max + 1
    ensures Wrapped(v) == if Fits(v) then v else if v > Max then v - 0x1_0000_0000_0000_0000 else v + 0x1_0000_0000_0000_0000
  {
  }

  /** The product is `v` exactly when `v` fits and dividing it by one factor gives the
      other without a remainder. */
  lemma MulFitsIffDivides(a: int, b: int, v: int)
    requires Fits(a) && Fits(b) && b != 0 && b != -1
    ensures IntBin(Mul, a, b) == Done(Int(v)) <==>
              Fits(v) && IntBin(Div, v, b) == Done(Int(a)) && IntBin(Mod, v, b) == Done(Int(0))
  {
    if Fits(v) {
      DivModLaw(v, b, a, 0);
      if IntBin(Mul, a, b) == Done(Int(v)) {
        DivUndoesMul(a, b);
      }
    }
  }

  predicate Holds(kind: Kind, a: int, b: int)
    requires Fits(a) && Fits(b)
  {
    IntBin(kind, a, b) == Done(Bool(true))
  }

  predicate MakesUp(a: int, b: int, d: int) {
    d > 0 && a + d == b
  }

  /** The comparisons: less means that a positive number makes up for it; exactly one of
      less, equal and greater holds; the others are their negations; and a difference
      that does not overflow has the sign they say. */
  lemma ComparisonsMean(a: int, b: int)
    requires Fits(a) && Fits(b)
    ensures Holds(Lt, a, b) <==> exists d: int :: MakesUp(a, b, d)
    ensures Holds(Gt, a, b) <==> Holds(Lt, b, a)
    ensures (Holds(Lt, a, b) && !Holds(Eq, a, b) && !Holds(Gt, a, b)) || (!Holds(Lt, a, b) && Holds(Eq, a, b) && !Holds(Gt, a, b))
            || (!Holds(Lt, a, b) && !Holds(Eq, a, b) && Holds(Gt, a, b))
    ensures (Holds(Le, a, b) <==> !Holds(Gt, a, b)) && (Holds(Ge, a, b) <==> !Holds(Lt, a, b)) && (Holds(Ne, a, b) <==> !Holds(Eq, a, b))
    ensures IntBin(Sub, a, b).Done? ==> (Holds(Lt, a, b) <==> IntBin(Sub, a, b).out.value < 0) && (Holds(Eq, a, b) <==> IntBin(Sub, a, b).out.value == 0)
  {
    if a < b {
      assert MakesUp(a, b, b - a);
    }
  }

  /** Dividing a product by a factor gives the other factor back. */
  lemma DivUndoesMul(a: int, b: int)
    requires Fits(a) && Fits(b) && b != 0 && IntBin(Mul, a, b).Done?
    ensures IntBin(Div, IntBin(Mul, a, b).out.value, b) == Done(Int(a))
    ensures IntBin(Mod, IntBin(Mul, a, b).out.value, b) == Done(Int(0))
  {
    assert IsDivision(a * b, b, a, 0);
    DivModLaw(a * b, b, a, 0);
  }
}
