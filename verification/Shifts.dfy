/** How Go's shifts are lowered to C, where a shift by the width or more is undefined, shifting a
    negative number is not portable, and narrow operands are promoted to `int`. */
module Shifts {
  import opened Options

  datatype CType = CType(width: nat, signed: bool)

  const INT := CType(32, true)
  const SIZE_T := CType(64, false)

  /** The integer types of Go, as C types. */
  predicate IsGoInteger(t: CType) {
    t.width == 8 || t.width == 16 || t.width == 32 || t.width == 64
  }

  function Pow2(n: nat): (p: nat)
    ensures p > 0
  {
    if n == 0 then 1 else 2 * Pow2(n - 1)
  }

  predicate InRange(t: CType, n: int)
    requires t.width > 0
  {
    if t.signed then 0 <= n + Pow2(t.width - 1) < Pow2(t.width) else 0 <= n < Pow2(t.width)
  }

  /** The value of type `t` that is congruent to `n` modulo 2 to the width. */
  function Wrap(t: CType, n: int): (r: int)
    requires t.width > 0
  {
    var u := n % Pow2(t.width);
    if t.signed && u >= Pow2(t.width - 1) then u - Pow2(t.width) else u
  }

  datatype CValue = CValue(t: CType, n: int)

  /** The C expressions that shifts are lowered to. `Raw` is the left operand, `Lhs` its copy in the
      unsigned type of its width, and `Count` the right operand. */
  datatype Expr =
    | Raw
    | Lhs
    | Count
    | Literal(n: int)
    | BitLength
    | Cast(t: CType, e: Expr)
    | Less(a: Expr, b: Expr)
    | Equal(a: Expr, b: Expr)
    | Conditional(c: Expr, yes: Expr, no: Expr)
    | ShiftLeft(a: Expr, b: Expr)
    | ShiftRight(a: Expr, b: Expr)
    | Or(a: Expr, b: Expr)
    | Minus(a: Expr, b: Expr)

  datatype Operands = Operands(raw: CValue, count: CValue)

  function Unsigned(t: CType): CType {
    CType(t.width, false)
  }

  function Promote(t: CType): CType {
    if t.width < 32 then INT else t
  }

  /** The usual arithmetic conversions. */
  function Common(a: CType, b: CType): CType {
    var p, q := Promote(a), Promote(b);
    if p.width > q.width then p else if q.width > p.width then q else CType(p.width, p.signed && q.signed)
  }

  function BitOr(a: nat, b: nat): nat
    decreases a + b
  {
    if a == 0 then b else if b == 0 then a else (if a % 2 == 1 || b % 2 == 1 then 1 else 0) + 2 * BitOr(a / 2, b / 2)
  }

  function Truth(b: bool): CValue {
    CValue(INT, if b then 1 else 0)
  }

  /** A value converted to type `t`. */
  function Convert(t: CType, v: CValue): CValue {
    if t.width == 0 then v else CValue(t, Wrap(t, v.n))
  }

  /** The result of a signed operation, unless it overflows; unsigned operations wrap around. */
  function Arithmetic(t: CType, n: int): Option<CValue> {
    if t.width == 0 then None
    else if t.signed then (if InRange(t, n) then Some(CValue(t, n)) else None)
    else Some(CValue(t, Wrap(t, n)))
  }

  /** The meaning of an expression; none if C leaves it undefined or to the implementation. */
  function Eval(e: Expr, o: Operands): Option<CValue> {
    match e
    case Raw => Some(o.raw)
    case Lhs => Some(Convert(Unsigned(o.raw.t), o.raw))
    case Count => Some(o.count)
    case Literal(n) => Some(CValue(INT, n))
    case BitLength => Some(CValue(SIZE_T, o.raw.t.width))
    case Cast(t, e) =>
      (match Eval(e, o)
       case Some(v) => Some(Convert(t, v))
       case None => None)
    case Less(a, b) =>
      (match (Eval(a, o), Eval(b, o))
       case (Some(v), Some(w)) => var t := Common(v.t, w.t); Some(Truth(Convert(t, v).n < Convert(t, w).n))
       case _ => None)
    case Equal(a, b) =>
      (match (Eval(a, o), Eval(b, o))
       case (Some(v), Some(w)) => var t := Common(v.t, w.t); Some(Truth(Convert(t, v).n == Convert(t, w).n))
       case _ => None)
    case Conditional(c, yes, no) =>
      (match Eval(c, o)
       case None => None
       case Some(v) =>
         var t := Common(TypeOf(yes, o), TypeOf(no, o));
         match Eval(if v.n != 0 then yes else no, o)
         case Some(w) => Some(Convert(t, w))
         case None => None)
    case ShiftLeft(a, b) =>
      (match (Eval(a, o), Eval(b, o))
       case (Some(v), Some(w)) =>
         var t := Promote(v.t);
         if 0 <= w.n < t.width && 0 <= v.n then Arithmetic(t, v.n * Pow2(w.n)) else None
       case _ => None)
    case ShiftRight(a, b) =>
      (match (Eval(a, o), Eval(b, o))
       case (Some(v), Some(w)) =>
         var t := Promote(v.t);
         if 0 <= w.n < t.width && 0 <= v.n then Some(CValue(t, v.n / Pow2(w.n))) else None
       case _ => None)
    case Or(a, b) =>
      (match (Eval(a, o), Eval(b, o))
       case (Some(v), Some(w)) =>
         var t := Common(v.t, w.t);
         if 0 <= v.n && 0 <= w.n then Arithmetic(t, BitOr(v.n, w.n)) else None
       case _ => None)
    case Minus(a, b) =>
      (match (Eval(a, o), Eval(b, o))
       case (Some(v), Some(w)) =>
         var t := Common(v.t, w.t);
         Arithmetic(t, Convert(t, v).n - Convert(t, w).n)
       case _ => None)
  }

  /** The static type of an expression. */
  function TypeOf(e: Expr, o: Operands): CType {
    match e
    case Raw => o.raw.t
    case Lhs => Unsigned(o.raw.t)
    case Count => o.count.t
    case Literal(_) => INT
    case BitLength => SIZE_T
    case Cast(t, _) => t
    case Less(_, _) => INT
    case Equal(_, _) => INT
    case Conditional(_, yes, no) => Common(TypeOf(yes, o), TypeOf(no, o))
    case ShiftLeft(a, _) => Promote(TypeOf(a, o))
    case ShiftRight(a, _) => Promote(TypeOf(a, o))
    case Or(a, b) => Common(TypeOf(a, o), TypeOf(b, o))
    case Minus(a, b) => Common(TypeOf(a, o), TypeOf(b, o))
  }

  // ----- the lowering

  function LowerShiftLeft(): Expr {
    Conditional(Less(Cast(SIZE_T, Count), BitLength), ShiftLeft(Lhs, Count), Literal(0))
  }

  /** What a right shift by the width or more yields. */
  function Overflow(t: CType): Expr {
    if t.signed then Conditional(Less(Raw, Literal(0)), Cast(Unsigned(t), Literal(-1)), Literal(0)) else Literal(0)
  }

  /** The sign bits that a right shift moves in. */
  function SignBits(t: CType): Expr {
    ShiftLeft(ShiftRight(Overflow(t), Minus(BitLength, Count)), Minus(BitLength, Count))
  }

  function LowerShiftRight(t: CType): Expr {
    var within :=
      if t.signed then Conditional(Equal(Count, Literal(0)), Lhs, Or(SignBits(t), ShiftRight(Lhs, Count)))
      else ShiftRight(Lhs, Count);
    Conditional(Less(Cast(SIZE_T, Count), BitLength), within, Overflow(t))
  }

  /** The shift as emitted: a signed count is first asserted not to be negative, and the result is stored
      in the type of the left operand. None if the assertion fails or the expression has no meaning. */
  function Shifted(e: Expr, o: Operands): Option<int>
    requires o.raw.t.width > 0
  {
    if o.count.t.signed && o.count.n < 0 then None
    else
      match Eval(e, o)
      case Some(v) => Some(Wrap(o.raw.t, v.n))
      case None => None
  }

  ghost predicate GoodOperands(o: Operands) {
    IsGoInteger(o.raw.t) && IsGoInteger(o.count.t) && InRange(o.raw.t, o.raw.n) && InRange(o.count.t, o.count.n)
  }

  // ----- powers of two

  lemma {:induction false} Pow2Add(a: nat, b: nat)
    ensures Pow2(a + b) == Pow2(a) * Pow2(b)
    decreases a
  {
    if a > 0 {
      Pow2Add(a - 1, b);
    }
  }

  lemma Pow2Monotone(a: nat, b: nat)
    requires a <= b
    ensures Pow2(a) <= Pow2(b)
  {
    Pow2Add(a, b - a);
    assert Pow2(a) * Pow2(b - a) >= Pow2(a);
  }

  lemma Pow2Small()
    ensures Pow2(7) == 0x80 && Pow2(8) == 0x100 && Pow2(15) == 0x8000 && Pow2(16) == 0x1_0000
  {
  }

  lemma Pow2Values()
    ensures Pow2(7) == 0x80 && Pow2(8) == 0x100 && Pow2(15) == 0x8000 && Pow2(16) == 0x1_0000
    ensures Pow2(31) == 0x8000_0000 && Pow2(32) == 0x1_0000_0000
    ensures Pow2(63) == 0x8000_0000_0000_0000 && Pow2(64) == 0x1_0000_0000_0000_0000
  {
    assert Pow2(32) == 2 * Pow2(31) && Pow2(64) == 2 * Pow2(63);
    hide Pow2;
    Pow2Small();
    Pow2Add(16, 16);
    Pow2Add(32, 32);
  }

  /** Bits that do not overlap: `or` is addition. */
  lemma {:induction false} DisjointBitsAdd(k: nat, high: nat, low: nat)
    requires low < Pow2(k)
    ensures BitOr(high * Pow2(k), low) == high * Pow2(k) + low
    decreases k
  {
    if k > 0 && high > 0 && low > 0 {
      var a := high * Pow2(k);
      assert a == 2 * (high * Pow2(k - 1));
      DisjointBitsAdd(k - 1, high, low / 2);
    }
  }

  // ----- conversions

  lemma WrapKeeps(t: CType, n: int)
    requires t.width > 0 && InRange(t, n)
    ensures Wrap(t, n) == n
  {
    var m, half := Pow2(t.width), Pow2(t.width - 1);
    assert m == 2 * half;
    if n < 0 {
      assert n % m == n + m by { ModUnique(n, m, n + m, -1); }
    } else {
      assert n % m == n by { ModUnique(n, m, n, 0); }
    }
  }

  /** Wrapping leaves a value of the type, which differs from the number by a multiple of 2 to the width. */
  lemma WrapMeans(t: CType, n: int)
    requires t.width > 0
    ensures InRange(t, Wrap(t, n)) && (Wrap(t, n) - n) % Pow2(t.width) == 0
  {
    var m, u, r := Pow2(t.width), n % Pow2(t.width), Wrap(t, n);
    assert m == 2 * Pow2(t.width - 1);
    var k := (if r == u then 0 else -1) - n / m;
    assert n == (n / m) * m + u;
    assert r - n == k * m;
    ModUnique(r - n, m, 0, k);
  }

  /** The values of Go's integer types. */
  lemma RangesAre(t: CType, n: int)
    requires IsGoInteger(t)
    ensures t.width == 8 ==> (InRange(t, n) <==> if t.signed then -128 <= n <= 127 else 0 <= n <= 255)
    ensures t.width == 16 ==> (InRange(t, n) <==> if t.signed then -32768 <= n <= 32767 else 0 <= n <= 65535)
    ensures t.width == 32 ==>
              (InRange(t, n) <==> if t.signed then -0x8000_0000 <= n <= 0x7fff_ffff else 0 <= n <= 0xffff_ffff)
    ensures t.width == 64 ==>
              (InRange(t, n) <==> if t.signed then -0x8000_0000_0000_0000 <= n <= 0x7fff_ffff_ffff_ffff
                                  else 0 <= n <= 0xffff_ffff_ffff_ffff)
  {
    hide Pow2;
    Pow2Values();
  }

  /** The usual arithmetic conversions, as C has them: at least `int`, as wide as the wider operand, and
      unsigned if an operand of that width is. */
  lemma CommonMeans(a: CType, b: CType)
    requires IsGoInteger(a) && IsGoInteger(b)
    ensures var c := Common(a, b);
            && c.width >= 32 && c.width >= a.width && c.width >= b.width
            && (c.width == 32 || c.width == a.width || c.width == b.width)
            && (!c.signed <==> (a.width == c.width && !a.signed) || (b.width == c.width && !b.signed))
  {
  }

  /** Remainders are unique. */
  lemma ModUnique(n: int, m: int, r: int, q: int)
    requires m > 0 && n == q * m + r && 0 <= r < m
    ensures n % m == r && n / m == q
  {
    var k := q - n / m;
    assert k * m == q * m - (n / m) * m;
    assert n == (n / m) * m + n % m;
    MultipleIsFar(k, m);
  }

  lemma MultipleIsFar(k: int, m: int)
    requires m > 0
    ensures k != 0 ==> k * m >= m || k * m <= -m
  {
    if k > 0 {
      ProductBound(1, k, m, m);
    } else if k < 0 {
      ProductBound(1, -k, m, m);
      assert (-k) * m == -(k * m);
    }
  }

  lemma CountFits(o: Operands)
    requires GoodOperands(o) && 0 <= o.count.n
    ensures o.count.n < Pow2(64)
  {
    Pow2Monotone(o.count.t.width, 64);
    if o.count.t.signed { assert Pow2(o.count.t.width) == 2 * Pow2(o.count.t.width - 1); }
  }

  /** The comparison of the count with the width is exact. */
  lemma CountBelowWidth(o: Operands)
    requires GoodOperands(o) && 0 <= o.count.n
    ensures Eval(Less(Cast(SIZE_T, Count), BitLength), o) == Some(Truth(o.count.n < o.raw.t.width))
  {
    CountFits(o);
    Pow2Values();
    WrapKeeps(SIZE_T, o.count.n);
    WrapKeeps(SIZE_T, o.raw.t.width);
    assert Common(SIZE_T, SIZE_T) == SIZE_T;
    assert Eval(Cast(SIZE_T, Count), o) == Some(CValue(SIZE_T, o.count.n));
  }

  /** Multiples of 2 to the width do not matter. */
  lemma WrapCongruent(t: CType, a: int, b: int, q: int)
    requires t.width > 0 && a == b + q * Pow2(t.width)
    ensures Wrap(t, a) == Wrap(t, b)
  {
    var m := Pow2(t.width);
    ModUnique(a, m, b % m, b / m + q);
  }

  lemma ShiftLeftByLess(o: Operands)
    requires GoodOperands(o) && 0 <= o.count.n < o.raw.t.width
    ensures var t, u := o.raw.t, Wrap(Unsigned(o.raw.t), o.raw.n);
            0 <= u < Pow2(t.width)
            && Eval(ShiftLeft(Lhs, Count), o) ==
               Some(if t.width < 32 then CValue(INT, u * Pow2(o.count.n))
                    else CValue(Unsigned(t), Wrap(Unsigned(t), u * Pow2(o.count.n))))
            && (t.width < 32 ==> InRange(INT, u * Pow2(o.count.n)))
  {
    var t, n := o.raw.t, o.count.n;
    var u := Wrap(Unsigned(t), o.raw.n);
    assert Eval(Lhs, o) == Some(CValue(Unsigned(t), u)) && Eval(Count, o) == Some(o.count);
    assert 0 <= u < Pow2(t.width);
    hide Wrap, Pow2;
    if t.width < 32 {
      NarrowFits(t.width, u, n);
    }
  }

  /** A narrow operand promoted to `int` is shifted without overflow. */
  lemma NarrowFits(w: nat, u: nat, n: nat)
    requires w <= 16 && u < Pow2(w) && n < w
    ensures InRange(INT, u * Pow2(n))
  {
    hide Pow2;
    Pow2Values();
    Pow2Monotone(n, 15);
    Pow2Monotone(w, 16);
    ProductBound(u, 0xffff, Pow2(n), 0x8000);
  }

  lemma ProductBound(a: nat, b: nat, c: nat, d: nat)
    requires a <= b && c <= d
    ensures a * c <= b * d
  {
    assert a * c <= b * c;
    assert b * c <= b * d;
  }

  /** Going through the unsigned type changes nothing modulo 2 to the width. */
  lemma WrapThroughUnsigned(t: CType, a: int)
    requires t.width > 0
    ensures 0 <= Wrap(Unsigned(t), a) < Pow2(t.width)
    ensures Wrap(t, Wrap(Unsigned(t), a)) == Wrap(t, a)
    ensures a == Wrap(Unsigned(t), a) + (a / Pow2(t.width)) * Pow2(t.width)
  {
    var m := Pow2(t.width);
    assert a == (a / m) * m + a % m;
    WrapCongruent(t, a, Wrap(Unsigned(t), a), a / m);
  }

  lemma WrapProduct(t: CType, a: int, p: int)
    requires t.width > 0
    ensures Wrap(t, Wrap(Unsigned(t), a) * p) == Wrap(t, a * p)
  {
    WrapThroughUnsigned(t, a);
    var u, q, m := Wrap(Unsigned(t), a), a / Pow2(t.width), Pow2(t.width);
    assert a * p == u * p + (q * p) * m by {
      assert (u + q * m) * p == u * p + (q * m) * p;
      assert (q * m) * p == (q * p) * m;
    }
    WrapCongruent(t, a * p, u * p, q * p);
  }

  lemma ConditionalValue(c: Expr, yes: Expr, no: Expr, o: Operands, b: bool, v: CValue)
    requires Eval(c, o) == Some(Truth(b)) && Eval(if b then yes else no, o) == Some(v)
    ensures Eval(Conditional(c, yes, no), o) == Some(Convert(Common(TypeOf(yes, o), TypeOf(no, o)), v))
  {
    hide Convert, Common, TypeOf;
  }

  lemma ConvertKeeps(t: CType, v: CValue)
    requires t.width > 0 && InRange(t, v.n)
    ensures Convert(t, v) == CValue(t, v.n)
  {
    WrapKeeps(t, v.n);
  }

  lemma ShiftLeftValue(o: Operands)
    requires GoodOperands(o) && 0 <= o.count.n
    ensures var t, u := o.raw.t, Wrap(Unsigned(o.raw.t), o.raw.n);
            var v := Eval(LowerShiftLeft(), o);
            if o.count.n >= t.width then v.Some? && v.value.n == 0
            else if t.width < 32 then v == Some(CValue(INT, u * Pow2(o.count.n)))
            else v == Some(CValue(Unsigned(t), Wrap(Unsigned(t), u * Pow2(o.count.n))))
  {
    hide *;
    var t, n := o.raw.t, o.count.n;
    var e := LowerShiftLeft();
    LoweredLeft(o);
    CountBelowWidth(o);
    ShiftLeftType(o);
    var c := Common(TypeOf(e.yes, o), TypeOf(e.no, o));
    if n < t.width {
      ShiftLeftByLess(o);
      var v := Eval(e.yes, o).value;
      ConditionalValue(e.c, e.yes, e.no, o, true, v);
      if t.width >= 32 {
        WrapThroughUnsigned(t, Wrap(Unsigned(t), o.raw.n) * Pow2(n));
        InRangeUnsigned(t, v.n);
      }
      ConvertKeeps(c, v);
    } else {
      LiteralValue(o, 0);
      ConditionalValue(e.c, e.yes, e.no, o, false, CValue(INT, 0));
      ZeroInRange(c);
      ConvertKeeps(c, CValue(INT, 0));
    }
  }

  lemma LoweredLeft(o: Operands)
    requires GoodOperands(o)
    ensures LowerShiftLeft() == Conditional(Less(Cast(SIZE_T, Count), BitLength), ShiftLeft(Lhs, Count), Literal(0))
    ensures o.raw.t.width > 0 && IsGoInteger(o.raw.t)
  {
    hide Pow2, InRange;
  }

  lemma ShiftLeftType(o: Operands)
    requires IsGoInteger(o.raw.t)
    ensures Common(TypeOf(ShiftLeft(Lhs, Count), o), TypeOf(Literal(0), o))
            == if o.raw.t.width < 32 then INT else Unsigned(o.raw.t)
    ensures Unsigned(o.raw.t).width == o.raw.t.width && INT.width == 32
  {
  }

  lemma LiteralValue(o: Operands, n: int)
    ensures Eval(Literal(n), o) == Some(CValue(INT, n))
  {
  }

  lemma ZeroInRange(t: CType)
    requires t.width > 0
    ensures InRange(t, 0)
  {
    assert Pow2(t.width) == 2 * Pow2(t.width - 1);
  }

  lemma InRangeUnsigned(t: CType, n: int)
    requires t.width > 0 && 0 <= n < Pow2(t.width)
    ensures InRange(Unsigned(t), n)
  {
  }

  /** A left shift is multiplication by a power of two modulo 2 to the width, for every count that is
      not negative; the emitted C is always defined. */
  lemma ShiftLeftIsExact(o: Operands)
    requires GoodOperands(o)
    ensures Shifted(LowerShiftLeft(), o)
            == if o.count.n < 0 then None else Some(Wrap(o.raw.t, o.raw.n * Pow2(o.count.n)))
  {
    var t, x, n := o.raw.t, o.raw.n, o.count.n;
    assert n < 0 ==> o.count.t.signed;
    assert t.width > 0;
    hide Eval, LowerShiftLeft, Pow2, Wrap, GoodOperands, Unsigned, InRange;
    if n >= 0 {
      ShiftLeftValue(o);
      if n < t.width {
        var u := Wrap(Unsigned(t), x);
        WrapProduct(t, x, Pow2(n));
        WrapThroughUnsigned(t, u * Pow2(n));
      } else {
        ZeroInRange(t);
        WrapKeeps(t, 0);
        Pow2Add(n - t.width, t.width);
        ProductThrough(x, Pow2(n - t.width), Pow2(t.width));
        WrapCongruent(t, x * Pow2(n), 0, x * Pow2(n - t.width));
      }
    }
  }

  lemma ProductThrough(a: int, b: int, c: int)
    ensures a * (b * c) == (a * b) * c
  {
  }

  // ----- right shifts

  /** The type in which the unsigned copy of an operand of type `t` is computed with. */
  function Wide(t: CType): CType {
    if t.width < 32 then INT else Unsigned(t)
  }

  /** What fits the unsigned type fits the type computed in. */
  lemma WideFits(t: CType, n: int)
    requires IsGoInteger(t) && 0 <= n < Pow2(t.width)
    ensures InRange(Wide(t), n) && Wide(t).width > 0
    ensures Arithmetic(Wide(t), n) == Some(CValue(Wide(t), n))
  {
    assert t.width <= 16 || t.width >= 32;
    hide Pow2;
    if t.width < 32 {
      Pow2Values();
      Pow2Monotone(t.width, 16);
    }
    WrapKeeps(Wide(t), n);
  }

  lemma WideTypes(t: CType, o: Operands)
    requires IsGoInteger(t) && o.raw.t == t
    ensures Promote(Unsigned(t)) == Wide(t) && Promote(Wide(t)) == Wide(t)
    ensures Common(Unsigned(t), INT) == Wide(t) && Common(Wide(t), INT) == Wide(t)
            && Common(Wide(t), Wide(t)) == Wide(t)
    ensures Common(Unsigned(t), Wide(t)) == Wide(t) && Wide(t).width > 0
    ensures t.signed ==> TypeOf(Overflow(t), o) == Wide(t) && TypeOf(SignBits(t), o) == Wide(t)
    ensures TypeOf(ShiftRight(Lhs, Count), o) == Wide(t)
            && TypeOf(Lhs, o) == Unsigned(t) && TypeOf(Literal(0), o) == INT
  {
  }

  /** All ones of a width, or none. */
  function Ones(w: nat, negative: bool): nat {
    if negative then Pow2(w) - 1 else 0
  }

  /** The value of the overflow expression: all ones for a negative operand, zero for any other. */
  function Mask(o: Operands): nat
    requires o.raw.t.width > 0
  {
    Ones(o.raw.t.width, o.raw.t.signed && o.raw.n < 0)
  }

  lemma MinusOneWraps(t: CType)
    requires t.width > 0
    ensures Wrap(Unsigned(t), -1) == Pow2(t.width) - 1
  {
    ModUnique(-1, Pow2(t.width), Pow2(t.width) - 1, -1);
  }

  lemma WiderFits(t: CType, c: CType, n: int)
    requires t.signed && c.signed && 0 < t.width <= c.width && InRange(t, n)
    ensures InRange(c, n)
  {
    Pow2Monotone(t.width - 1, c.width - 1);
    assert Pow2(c.width) == 2 * Pow2(c.width - 1) && Pow2(t.width) == 2 * Pow2(t.width - 1);
  }

  lemma LessOf(a: Expr, b: Expr, o: Operands, v: CValue, w: CValue)
    requires Eval(a, o) == Some(v) && Eval(b, o) == Some(w)
    ensures var t := Common(v.t, w.t); Eval(Less(a, b), o) == Some(Truth(Convert(t, v).n < Convert(t, w).n))
  {
    hide Common, Convert;
  }

  lemma SignedCommon(o: Operands)
    requires GoodOperands(o) && o.raw.t.signed
    ensures var c := Common(o.raw.t, INT); c.signed && c.width >= o.raw.t.width > 0 && InRange(o.raw.t, o.raw.n)
    ensures Eval(Raw, o) == Some(o.raw)
  {
    hide InRange, Pow2;
  }

  lemma NegativeTest(o: Operands)
    requires GoodOperands(o) && o.raw.t.signed
    ensures Eval(Less(Raw, Literal(0)), o) == Some(Truth(o.raw.n < 0))
  {
    hide *;
    SignedCommon(o);
    LiteralValue(o, 0);
    var c := Common(o.raw.t, INT);
    WiderFits(o.raw.t, c, o.raw.n);
    ConvertKeeps(c, o.raw);
    ZeroInRange(c);
    ConvertKeeps(c, CValue(INT, 0));
    LessOf(Raw, Literal(0), o, o.raw, CValue(INT, 0));
  }

  lemma OverflowValue(o: Operands)
    requires GoodOperands(o) && o.raw.t.signed
    ensures Eval(Overflow(o.raw.t), o) == Some(CValue(Wide(o.raw.t), Mask(o)))
  {
    var t := o.raw.t;
    var e := Overflow(t);
    assert Mask(o) < Pow2(t.width);
    MinusOneWraps(t);
    assert o.raw.n < 0 ==> Eval(e.yes, o) == Some(CValue(Unsigned(t), Mask(o)));
    assert o.raw.n >= 0 ==> Eval(e.no, o) == Some(CValue(INT, Mask(o)));
    assert e.yes == Cast(Unsigned(t), Literal(-1)) && e.no == Literal(0)
           && TypeOf(e.yes, o) == Unsigned(t) && TypeOf(e.no, o) == INT;
    assert e == Conditional(Less(Raw, Literal(0)), e.yes, e.no);
    NegativeTest(o);
    WideTypes(t, o);
    WideFits(t, Mask(o));
    hide *;
    var v := CValue(if o.raw.n < 0 then Unsigned(t) else INT, Mask(o));
    ConditionalValue(e.c, e.yes, e.no, o, o.raw.n < 0, v);
    ConvertKeeps(Wide(t), v);
  }

  lemma MinusOf(a: Expr, b: Expr, o: Operands, v: CValue, w: CValue)
    requires Eval(a, o) == Some(v) && Eval(b, o) == Some(w)
    ensures var t := Common(v.t, w.t); Eval(Minus(a, b), o) == Arithmetic(t, Convert(t, v).n - Convert(t, w).n)
  {
    hide Common, Convert, Arithmetic;
  }

  lemma SizeFits(n: int)
    requires 0 <= n < Pow2(64)
    ensures forall t :: Convert(SIZE_T, CValue(t, n)) == CValue(SIZE_T, n)
    ensures Arithmetic(SIZE_T, n) == Some(CValue(SIZE_T, n))
  {
    WrapKeeps(SIZE_T, n);
    hide Pow2, Wrap;
  }

  lemma SizeTypes(o: Operands)
    requires GoodOperands(o)
    ensures Common(SIZE_T, o.count.t) == SIZE_T && o.raw.t.width <= 64 < Pow2(64)
    ensures Eval(BitLength, o) == Some(CValue(SIZE_T, o.raw.t.width)) && Eval(Count, o) == Some(o.count)
  {
    Pow2Values();
    hide Pow2, InRange;
  }

  lemma MinusValue(o: Operands)
    requires GoodOperands(o) && 0 < o.count.n < o.raw.t.width
    ensures Eval(Minus(BitLength, Count), o) == Some(CValue(SIZE_T, o.raw.t.width - o.count.n))
  {
    hide *;
    SizeTypes(o);
    SizeFits(o.count.n);
    SizeFits(o.raw.t.width);
    SizeFits(o.raw.t.width - o.count.n);
    assert o.count == CValue(o.count.t, o.count.n);
    MinusOf(BitLength, Count, o, CValue(SIZE_T, o.raw.t.width), o.count);
  }

  /** `n` ones at the top of a width, or none. */
  function TopOnes(w: nat, n: nat, negative: bool): nat
    requires n <= w
  {
    Ones(n, negative) * Pow2(w - n)
  }

  /** Shifting right by `k` and back left. */
  ghost predicate ShiftsTo(v: nat, k: nat, down: nat, up: nat) {
    v / Pow2(k) == down && down * Pow2(k) == up
  }

  lemma MaskShifts(w: nat, n: nat, negative: bool)
    requires 0 < n < w
    ensures ShiftsTo(Ones(w, negative), w - n, Ones(n, negative), TopOnes(w, n, negative))
    ensures TopOnes(w, n, negative) < Pow2(w)
  {
    Pow2Add(n, w - n);
    DropLowOnes(Pow2(n), Pow2(w - n));
    hide Pow2;
  }

  lemma DropLowOnes(p: nat, q: nat)
    requires p > 0 && q > 0
    ensures (p * q - 1) / q == p - 1 && 0 <= (p - 1) * q < p * q && 0 / q == 0
  {
    assert (p - 1) * q == p * q - q;
    ModUnique(p * q - 1, q, q - 1, p - 1);
    ProductBound(0, p - 1, q, q);
  }

  /** The sign bits: a right and a left shift of the mask leave `n` ones at the top. */
  lemma SignBitsValue(o: Operands)
    requires GoodOperands(o) && o.raw.t.signed && 0 < o.count.n < o.raw.t.width
    ensures var t, n := o.raw.t, o.count.n;
            Eval(SignBits(t), o) == Some(CValue(Wide(t), TopOnes(t.width, n, o.raw.n < 0)))
  {
    hide *;
    var t, n := o.raw.t, o.count.n;
    var k := t.width - n;
    SignBitsShape(o);
    OverflowValue(o);
    MinusValue(o);
    MaskShifts(t.width, n, o.raw.n < 0);
    var top := TopOnes(t.width, n, o.raw.n < 0);
    WideFits(t, top);
    ShiftTwice(Overflow(t), Minus(BitLength, Count), o, Wide(t), Mask(o), k, Ones(n, o.raw.n < 0), top);
  }

  lemma SignBitsShape(o: Operands)
    requires GoodOperands(o) && o.raw.t.signed
    ensures var t := o.raw.t;
            && SignBits(t) == ShiftLeft(ShiftRight(Overflow(t), Minus(BitLength, Count)), Minus(BitLength, Count))
            && Promote(Wide(t)) == Wide(t) && Wide(t).width >= t.width > 0 && IsGoInteger(t)
            && Mask(o) == Ones(t.width, o.raw.n < 0)
  {
    hide InRange, Pow2;
  }

  lemma ShiftTwice(a: Expr, b: Expr, o: Operands, t: CType, v: nat, k: nat, down: nat, up: nat)
    requires Eval(a, o) == Some(CValue(t, v)) && Eval(b, o) == Some(CValue(SIZE_T, k)) && Promote(t) == t && k < t.width
    requires ShiftsTo(v, k, down, up) && Arithmetic(t, up) == Some(CValue(t, up))
    ensures Eval(ShiftLeft(ShiftRight(a, b), b), o) == Some(CValue(t, up))
  {
    assert v / Pow2(k) == down && down * Pow2(k) == up;
    hide *;
    ShiftRightValue(a, b, o, CValue(t, v), CValue(SIZE_T, k));
    ShiftLeftValueOf(ShiftRight(a, b), b, o, CValue(t, down), CValue(SIZE_T, k), CValue(t, up));
  }

  lemma ShiftRightValue(a: Expr, b: Expr, o: Operands, v: CValue, w: CValue)
    requires Eval(a, o) == Some(v) && Eval(b, o) == Some(w) && 0 <= w.n < Promote(v.t).width && 0 <= v.n
    ensures Eval(ShiftRight(a, b), o) == Some(CValue(Promote(v.t), v.n / Pow2(w.n)))
  {
    hide Promote, Pow2;
  }

  lemma ShiftLeftValueOf(a: Expr, b: Expr, o: Operands, v: CValue, w: CValue, r: CValue)
    requires Eval(a, o) == Some(v) && Eval(b, o) == Some(w) && 0 <= w.n < Promote(v.t).width && 0 <= v.n
    requires Arithmetic(Promote(v.t), v.n * Pow2(w.n)) == Some(r)
    ensures Eval(ShiftLeft(a, b), o) == Some(r)
  {
    hide Promote, Pow2, Arithmetic;
  }

  /** The copy of the operand in its unsigned type. */
  function Copy(o: Operands): nat
    requires o.raw.t.width > 0
  {
    Wrap(Unsigned(o.raw.t), o.raw.n)
  }

  /** The bits of `a` from bit `n` on. */
  function Down(a: nat, n: nat): nat {
    QuotientIsNat(a, Pow2(n));
    a / Pow2(n)
  }

  lemma QuotientIsNat(a: nat, p: nat)
    requires p > 0
    ensures a / p >= 0
  {
  }

  lemma LhsShiftedRight(o: Operands)
    requires GoodOperands(o) && 0 <= o.count.n < o.raw.t.width
    ensures Eval(Lhs, o) == Some(CValue(Unsigned(o.raw.t), Copy(o)))
    ensures Eval(ShiftRight(Lhs, Count), o) == Some(CValue(Wide(o.raw.t), Down(Copy(o), o.count.n)))
  {
    WideTypes(o.raw.t, o);
    assert Wide(o.raw.t).width >= o.raw.t.width;
    assert Eval(Lhs, o) == Some(CValue(Unsigned(o.raw.t), Copy(o))) && Eval(Count, o) == Some(o.count);
    assert Down(Copy(o), o.count.n) == Copy(o) / Pow2(o.count.n);
    hide *;
    ShiftRightValue(Lhs, Count, o, CValue(Unsigned(o.raw.t), Copy(o)), o.count);
  }

  /** What the lowering of a right shift computes, before it is stored in the operand's type. */
  function ShiftedCopy(o: Operands): nat
    requires GoodOperands(o) && 0 <= o.count.n
  {
    var t, n := o.raw.t, o.count.n;
    if n >= t.width then Mask(o)
    else if t.signed && n > 0 then TopOnes(t.width, n, o.raw.n < 0) + Down(Copy(o), n)
    else Down(Copy(o), n)
  }

  /** The sign bits do not overlap the bits shifted down. */
  lemma OrIsSum(o: Operands)
    requires GoodOperands(o) && 0 < o.count.n < o.raw.t.width
    ensures var t, n := o.raw.t, o.count.n;
            var top := TopOnes(t.width, n, o.raw.n < 0);
            BitOr(top, Down(Copy(o), n)) == top + Down(Copy(o), n) < Pow2(t.width)
  {
    var t, n := o.raw.t, o.count.n;
    hide *;
    var negative := o.raw.n < 0;
    var k := t.width - n;
    CopyFits(o);
    DownBound(Copy(o), n, k);
    DisjointBitsAdd(k, Ones(n, negative), Down(Copy(o), n));
    TopOnesBound(t.width, n, negative);
  }

  lemma CopyFits(o: Operands)
    requires o.raw.t.width > 0
    ensures Copy(o) < Pow2(o.raw.t.width)
  {
  }

  lemma DownBound(a: nat, n: nat, k: nat)
    requires a < Pow2(n + k)
    ensures Down(a, n) < Pow2(k)
  {
    Pow2Add(n, k);
    QuotientBound(a, Pow2(n), Pow2(k));
    hide Pow2;
  }

  lemma QuotientBound(a: nat, p: nat, q: nat)
    requires p > 0 && a < p * q
    ensures 0 <= a / p < q
  {
    if a / p >= q { ProductBound(q, a / p, p, p); }
  }

  lemma TopOnesBound(w: nat, n: nat, negative: bool)
    requires 0 < n < w
    ensures TopOnes(w, n, negative) == Ones(n, negative) * Pow2(w - n)
    ensures TopOnes(w, n, negative) + Pow2(w - n) <= Pow2(w)
  {
    hide Pow2;
    Pow2Add(n, w - n);
    TopBound(Pow2(n), Pow2(w - n));
  }

  lemma TopBound(p: nat, q: nat)
    requires p > 0
    ensures (p - 1) * q + q == p * q && 0 <= q <= p * q
  {
    assert (p - 1) * q == p * q - q;
    ProductBound(1, p, q, q);
  }

  lemma SignedWithin(o: Operands)
    requires GoodOperands(o) && o.raw.t.signed && 0 < o.count.n < o.raw.t.width
    ensures Eval(Or(SignBits(o.raw.t), ShiftRight(Lhs, Count)), o) == Some(CValue(Wide(o.raw.t), ShiftedCopy(o)))
  {
    var t, n := o.raw.t, o.count.n;
    hide *;
    var top, low := TopOnes(t.width, n, o.raw.n < 0), Down(Copy(o), n);
    ShiftedCopyIs(o);
    SignBitsValue(o);
    LhsShiftedRight(o);
    OrIsSum(o);
    WideTypes(t, o);
    WideFits(t, top + low);
    OrValue(SignBits(t), ShiftRight(Lhs, Count), o, Wide(t), top, low);
  }

  lemma ShiftedCopyIs(o: Operands)
    requires GoodOperands(o) && 0 <= o.count.n < o.raw.t.width
    ensures IsGoInteger(o.raw.t)
    ensures ShiftedCopy(o)
            == (if o.raw.t.signed && o.count.n > 0 then TopOnes(o.raw.t.width, o.count.n, o.raw.n < 0) else 0)
               + Down(Copy(o), o.count.n)
  {
    hide Pow2, InRange;
  }

  lemma OrValue(a: Expr, b: Expr, o: Operands, t: CType, v: nat, w: nat)
    requires Eval(a, o) == Some(CValue(t, v)) && Eval(b, o) == Some(CValue(t, w)) && Common(t, t) == t
    requires Arithmetic(t, BitOr(v, w)) == Some(CValue(t, BitOr(v, w)))
    ensures Eval(Or(a, b), o) == Some(CValue(t, BitOr(v, w)))
  {
    hide Common, Arithmetic, BitOr;
  }

  lemma ShiftedCopyFits(o: Operands)
    requires GoodOperands(o) && 0 <= o.count.n
    ensures 0 <= ShiftedCopy(o) < Pow2(o.raw.t.width)
  {
    var t, n := o.raw.t, o.count.n;
    assert Copy(o) < Pow2(t.width) && Mask(o) < Pow2(t.width) && Pow2(0) == 1;
    assert n >= t.width ==> ShiftedCopy(o) == Mask(o);
    assert Down(Copy(o), 0) == Copy(o) / Pow2(0);
    hide *;
    if n < t.width {
      ShiftedCopyIs(o);
      if n > 0 { OrIsSum(o); }
    }
  }

  lemma CountInCommon(o: Operands)
    requires GoodOperands(o) && 0 <= o.count.n
    ensures var c := Common(o.count.t, INT); c.width > 0 && InRange(c, o.count.n)
  {
    var t := o.count.t;
    if t.width < 32 {
      Pow2Monotone(t.width, 16);
      assert Pow2(t.width) == 2 * Pow2(t.width - 1);
      assert o.count.n < Pow2(16);
      hide Pow2;
      Pow2Values();
    } else {
      assert Common(t, INT) == t;
    }
  }

  lemma EqualValue(a: Expr, b: Expr, o: Operands, v: CValue, w: CValue)
    requires Eval(a, o) == Some(v) && Eval(b, o) == Some(w)
    ensures Eval(Equal(a, b), o) == Some(Truth(Convert(Common(v.t, w.t), v).n == Convert(Common(v.t, w.t), w).n))
  {
    hide Convert, Common;
  }

  lemma CountIsZero(o: Operands)
    requires GoodOperands(o) && 0 <= o.count.n
    ensures Eval(Equal(Count, Literal(0)), o) == Some(Truth(o.count.n == 0))
  {
    var c := Common(o.count.t, INT);
    assert Eval(Count, o) == Some(o.count);
    hide *;
    CountInCommon(o);
    LiteralValue(o, 0);
    ZeroInRange(c);
    ConvertKeeps(c, o.count);
    ConvertKeeps(c, CValue(INT, 0));
    EqualValue(Count, Literal(0), o, o.count, CValue(INT, 0));
  }

  function Within(t: CType): Expr {
    if t.signed then Conditional(Equal(Count, Literal(0)), Lhs, Or(SignBits(t), ShiftRight(Lhs, Count)))
    else ShiftRight(Lhs, Count)
  }

  lemma LoweredParts(o: Operands)
    requires GoodOperands(o)
    ensures var t := o.raw.t;
            && LowerShiftRight(t) == Conditional(Less(Cast(SIZE_T, Count), BitLength), Within(t), Overflow(t))
            && Common(TypeOf(Within(t), o), TypeOf(Overflow(t), o)) == Wide(t) && IsGoInteger(t)
            && (t.signed ==> TypeOf(Overflow(t), o) == Wide(t))
            && (t.signed ==> Common(TypeOf(Lhs, o), TypeOf(Or(SignBits(t), ShiftRight(Lhs, Count)), o)) == Wide(t))
            && (t.signed ==>
                  Within(t) == Conditional(Equal(Count, Literal(0)), Lhs, Or(SignBits(t), ShiftRight(Lhs, Count))))
            && (!t.signed ==>
                  Overflow(t) == Literal(0) && TypeOf(Overflow(t), o) == INT && Within(t) == ShiftRight(Lhs, Count))
  {
    hide InRange, Pow2, SignBits;
    WideTypes(o.raw.t, o);
  }

  lemma OverValue(o: Operands)
    requires GoodOperands(o) && o.count.n >= o.raw.t.width
    ensures Eval(Overflow(o.raw.t), o) == Some(CValue(TypeOf(Overflow(o.raw.t), o), ShiftedCopy(o)))
  {
    assert ShiftedCopy(o) == Mask(o) && (!o.raw.t.signed ==> Mask(o) == 0);
    hide *;
    LoweredParts(o);
    if o.raw.t.signed { OverflowValue(o); } else { LiteralValue(o, 0); }
  }

  lemma WithinValue(o: Operands)
    requires GoodOperands(o) && 0 <= o.count.n < o.raw.t.width
    ensures Eval(Within(o.raw.t), o) == Some(CValue(Wide(o.raw.t), ShiftedCopy(o)))
  {
    var t, n := o.raw.t, o.count.n;
    assert Down(Copy(o), 0) == Copy(o) / Pow2(0) == Copy(o);
    hide *;
    LoweredParts(o);
    ShiftedCopyIs(o);
    ShiftedCopyFits(o);
    LhsShiftedRight(o);
    if t.signed {
      CountIsZero(o);
      WideFits(t, ShiftedCopy(o));
      var v := CValue(if n == 0 then Unsigned(t) else Wide(t), ShiftedCopy(o));
      if n > 0 { SignedWithin(o); }
      ConditionalValue(Equal(Count, Literal(0)), Lhs, Or(SignBits(t), ShiftRight(Lhs, Count)), o, n == 0, v);
      ConvertKeeps(Wide(t), v);
    }
  }

  lemma ShiftRightValueOf(o: Operands)
    requires GoodOperands(o) && 0 <= o.count.n
    ensures Eval(LowerShiftRight(o.raw.t), o) == Some(CValue(Wide(o.raw.t), ShiftedCopy(o)))
  {
    hide *;
    var t, n := o.raw.t, o.count.n;
    ShiftedCopyFits(o);
    CountBelowWidth(o);
    LoweredParts(o);
    var v := CValue(if n < t.width then Wide(t) else TypeOf(Overflow(t), o), ShiftedCopy(o));
    if n < t.width { WithinValue(o); } else { OverValue(o); }
    ConditionalValue(Less(Cast(SIZE_T, Count), BitLength), Within(t), Overflow(t), o, n < t.width, v);
    WideFits(t, ShiftedCopy(o));
    ConvertKeeps(Wide(t), v);
  }

  // ----- what it means

  lemma NegativeCopy(o: Operands)
    requires GoodOperands(o) && o.raw.n < 0
    ensures o.raw.t.signed && Copy(o) == o.raw.n + Pow2(o.raw.t.width)
  {
    ModUnique(o.raw.n, Pow2(o.raw.t.width), o.raw.n + Pow2(o.raw.t.width), -1);
  }

  /** Floor division of a two's complement number, in terms of its unsigned copy. */
  lemma DownIsFloor(x: int, w: nat, n: nat)
    requires 0 < n < w && x < 0 && 0 <= x + Pow2(w)
    ensures TopOnes(w, n, true) + Down(x + Pow2(w), n) == x / Pow2(n) + Pow2(w)
  {
    Pow2Add(n, w - n);
    FloorShift(x, Pow2(n), Pow2(w - n));
    hide Pow2;
  }

  lemma FloorShift(x: int, p: nat, q: nat)
    requires p > 0
    ensures (p - 1) * q + (x + p * q) / p == x / p + p * q
  {
    assert x == (x / p) * p + x % p;
    assert (x / p + q) * p == (x / p) * p + p * q;
    ModUnique(x + p * q, p, x % p, x / p + q);
    assert (p - 1) * q == p * q - q;
  }

  lemma FloorRange(x: int, p: nat)
    requires p > 0
    ensures if x < 0 then x <= x / p <= -1 else 0 <= x / p <= x
  {
    FloorBounds(x, p, x / p, x % p);
  }

  lemma FloorBounds(x: int, p: nat, q: int, r: nat)
    requires p > 0 && r < p && x == q * p + r
    ensures if x < 0 then x <= q <= -1 else 0 <= q <= x
  {
    if q >= 0 {
      ProductBound(q, q, 1, p);
      assert 0 <= q <= q * p;
    } else {
      ProductBound(1, -q, p - 1, p - 1);
      assert (-q) * (p - 1) == -(q * p) + q;
      ProductBound(1, -q, p, p);
      assert (-q) * p == -(q * p);
    }
  }

  lemma SmallFloor(x: int, p: nat)
    requires 0 <= x + p < 2 * p && p > 0
    ensures x / p == if x < 0 then -1 else 0
  {
    if x < 0 { ModUnique(x, p, x + p, -1); } else { ModUnique(x, p, x, 0); }
  }

  lemma CopyIs(o: Operands)
    requires GoodOperands(o)
    ensures var t, x := o.raw.t, o.raw.n;
            && Copy(o) == (if x < 0 then x + Pow2(t.width) else x) && 0 <= x + Pow2(t.width) < 2 * Pow2(t.width)
            && (x < 0 ==> t.signed) && t.width > 0
  {
    var t, x := o.raw.t, o.raw.n;
    assert Pow2(t.width) == 2 * Pow2(t.width - 1);
    if x < 0 { NegativeCopy(o); } else { WrapKeeps(Unsigned(t), x); }
    hide Wrap;
  }

  lemma ShiftedOut(o: Operands)
    requires GoodOperands(o) && o.count.n >= o.raw.t.width
    ensures ShiftedCopy(o) == if o.raw.n < 0 then Pow2(o.raw.t.width) - 1 else 0
  {
    hide Pow2;
    CopyIs(o);
  }

  lemma TopOnesZero(w: nat, n: nat)
    requires n <= w
    ensures TopOnes(w, n, false) == 0
  {
    hide Pow2;
  }

  /** The computed value and the floor quotient differ by 2 to the width at most. */
  lemma ShiftedCopyIsFloor(o: Operands)
    requires GoodOperands(o) && 0 <= o.count.n
    ensures ShiftedCopy(o) == o.raw.n / Pow2(o.count.n) + (if o.raw.n < 0 then Pow2(o.raw.t.width) else 0)
  {
    var t, x, n := o.raw.t, o.raw.n, o.count.n;
    assert Down(Copy(o), n) == Copy(o) / Pow2(n) && Pow2(0) == 1;
    hide *;
    CopyIs(o);
    if n >= t.width {
      ShiftedOut(o);
      Pow2Monotone(t.width, n);
      SmallFloor(x, Pow2(n));
    } else {
      ShiftedCopyIs(o);
      if n > 0 {
        if x < 0 { DownIsFloor(x, t.width, n); } else { TopOnesZero(t.width, n); }
      }
    }
  }

  /** A right shift is division by a power of two, rounded down, for every operand, signed or not, and
      every count that is not negative; the emitted C is always defined. */
  lemma ShiftRightIsExact(o: Operands)
    requires GoodOperands(o)
    ensures Shifted(LowerShiftRight(o.raw.t), o) == if o.count.n < 0 then None else Some(o.raw.n / Pow2(o.count.n))
  {
    var t, x, n := o.raw.t, o.raw.n, o.count.n;
    assert n < 0 ==> o.count.t.signed;
    assert t.width > 0;
    if n >= 0 {
      FloorInRange(o);
      assert Eval(LowerShiftRight(t), o).Some? ==>
               Shifted(LowerShiftRight(t), o) == Some(Wrap(t, Eval(LowerShiftRight(t), o).value.n));
      hide *;
      ShiftRightValueOf(o);
      ShiftedCopyIsFloor(o);
      var floor := x / Pow2(n);
      WrapCongruent(t, ShiftedCopy(o), floor, if x < 0 then 1 else 0);
      WrapKeeps(t, floor);
    }
  }

  lemma FloorInRange(o: Operands)
    requires GoodOperands(o) && 0 <= o.count.n
    ensures InRange(o.raw.t, o.raw.n / Pow2(o.count.n))
  {
    FloorRange(o.raw.n, Pow2(o.count.n));
    hide Pow2;
  }
}
