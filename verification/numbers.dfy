/**
 * The integer codec's reading half: `tenfold`, the digit-by-digit scanner of
 * `reader<T>::read`, and `reader<bool>::read`.
 *
 * A destination type `T` is described by its width and signedness; values
 * are unbounded integers kept inside the type's range explicitly.  The
 * overflow policy (`config::overflow`) is a parameter.
 */
module Numbers {
  import opened Errors
  import opened CharClass
  import opened Lexing
  import opened Literals
  import opened Arith
  import opened Decimal

  /** `config::overflow_is`. */
  datatype Policy = Ignored | Error | Saturated

  /** The widths of the integral types the reader is instantiated with. */
  datatype Width = W8 | W16 | W32 | W64

  /** An integral destination type: its width and signedness. */
  datatype IntType = IntType(width: Width, signed: bool)

  /** The number of distinct values of the type. */
  function Modulus(t: IntType): int {
    match t.width
    case W8 => 0x100
    case W16 => 0x1_0000
    case W32 => 0x1_0000_0000
    case W64 => 0x1_0000_0000_0000_0000
  }

  /** `std::numeric_limits<T>::min()`. */
  function Min(t: IntType): int {
    if t.signed then -(Modulus(t) / 2) else 0
  }

  /** `std::numeric_limits<T>::max()`. */
  function Max(t: IntType): int {
    if t.signed then Modulus(t) / 2 - 1 else Modulus(t) - 1
  }

  lemma LimitsFacts(t: IntType)
    ensures Max(t) >= 127 && Min(t) <= 0
    ensures t.signed ==> Min(t) <= -128
    ensures Max(t) - Min(t) + 1 == Modulus(t)
  {
  }

  predicate InRange(t: IntType, x: int) {
    Min(t) <= x <= Max(t)
  }

  /** Two's complement truncation to the type's width: how the model reads
      an unchecked `val *= 10; val += digit` that overflows. */
  function Wrap(t: IntType, x: int): (r: int)
    ensures InRange(t, r)
    ensures (r - x) % Modulus(t) == 0
    ensures InRange(t, x) ==> r == x
  {
    LimitsFacts(t);
    Reduce(x, Min(t), Modulus(t));
    (x - Min(t)) % Modulus(t) + Min(t)
  }

  /** Quotient and remainder of division by ten as C++ computes them: the
      quotient is truncated toward zero, the remainder takes the dividend's sign. */
  function Div10(a: int): int {
    if a >= 0 then a / 10 else -((-a) / 10)
  }

  function Rem10(a: int): (r: int)
    ensures a == 10 * Div10(a) + r
    ensures a >= 0 ==> 0 <= r <= 9
    ensures a < 0 ==> -9 <= r <= 0
  {
    a - 10 * Div10(a)
  }

  /** `val` and `digit` do not pull in opposite directions, as is always the
      case in the scanner (digits carry the sign of the number). */
  predicate SameSign(val: int, digit: int) {
    (val >= 0 && digit >= 0) || (val <= 0 && digit <= 0)
  }

  datatype Step = Step(ok: bool, val: int)

  /** `tenfold`: `val * 10 + digit` under the overflow policy.  With a checking
      policy, a product below the minimum (signed types only) or above the
      maximum clamps to that limit and succeeds only when saturating.
      Under `ignored` the unchecked result is taken to wrap (`Wrap`). */
  function Tenfold(t: IntType, policy: Policy, val: int, digit: int): (r: Step)
    requires InRange(t, val) && -9 <= digit <= 9 && (digit < 0 ==> t.signed)
    ensures InRange(t, r.val)
    ensures policy == Ignored ==> r.ok && (r.val - (10 * val + digit)) % Modulus(t) == 0
    ensures SameSign(val, digit) && InRange(t, 10 * val + digit) ==> r == Step(true, 10 * val + digit)
    ensures policy != Ignored && 10 * val + digit > Max(t) ==>
      r == Step(policy == Saturated, Max(t))
    ensures policy != Ignored && 10 * val + digit < Min(t) ==>
      r == Step(policy == Saturated, Min(t))
  {
    LimitsFacts(t);
    var max, mxd := Max(t) / 10, Max(t) % 10;
    var min, mnd := Div10(Min(t)), Rem10(Min(t));
    var check := policy != Ignored;
    var saturation := policy == Saturated;
    if check && t.signed && (val < min || (val == min && digit < mnd)) then
      Step(saturation, Min(t))
    else if check && (val > max || (val == max && digit > mxd)) then
      Step(saturation, Max(t))
    else
      Step(true, Wrap(t, 10 * val + digit))
  }

  /** The outcome of reading a number: success, the destination's value, the lexer. */
  datatype Scanned = Scanned(ok: bool, val: int, lx: Lexer)

  /** The scanner's loop state: the accumulated value and the sign seen so far
      (0 before the first digit or sign, 1 after an unsigned start, -1 after `-`). */
  predicate ScanState(t: IntType, val: int, sign: int) {
    && InRange(t, val)
    && (sign == 0 || sign == 1 || sign == -1)
    && (sign == -1 ==> t.signed)
  }

  /** The loop of `reader<T>::read`: read characters through the `numeric`
      mask until the number ends.
       - a digit is accumulated with `tenfold`, negated after a `-`; when
         `tenfold` fails the overflow bit is set and the rest of the number
         run is skipped;
       - a single leading `-` is accepted for signed types only; a second `-`
         or a `-` after digits is malformed; `+` is malformed; a `-` for an
         unsigned type before any digit is a mismatch;
       - a delimiter or the end of input ends the number successfully, and a
         delimiter that is not whitespace is pushed back;
       - any other character is malformed (unclassified) or a mismatch. */
  function Scan(t: IntType, policy: Policy, lx: Lexer, val: int, sign: int): (r: Scanned)
    requires ScanState(t, val, sign)
    ensures InRange(t, r.val)
    ensures Follows(lx, r.lx)
    decreases Remaining(lx), 2
  {
    OnChar(t, policy, lx, GetMasked(lx, Numeric), val, sign)
  }

  /** One turn of the scanner's loop: act on the classified character `g`
      that was read from `lx`. */
  function OnChar(t: IntType, policy: Policy, lx: Lexer, g: Got, val: int, sign: int): (r: Scanned)
    requires ScanState(t, val, sign) && g == GetMasked(lx, Numeric)
    ensures InRange(t, r.val)
    ensures Follows(lx, r.lx)
    decreases Remaining(lx), 1
  {
    var c := g.ch;
    if g.ct == Roles(Digit) then
      var d := DigitValue(c);
      assert 0 <= d <= 9 by { NumericView(c); }
      var sg := if sign == 0 then 1 else sign;
      var r := Accumulate(t, policy, g.lx, val, sg, if sg > 0 then d else -d);
      FollowsTransitive(lx, g.lx, r.lx);
      r
    else if g.ct == Roles(Sign) then
      if t.signed && c == Minus then
        if sign != 0 then
          Scanned(false, val, Raised(g.lx, Bad))
        else
          var r := Scan(t, policy, g.lx, val, -1);
          FollowsTransitive(lx, g.lx, r.lx);
          r
      else
        Scanned(false, val, Raised(g.lx, if c == Plus || sign != 0 then Bad else Mismatch))
    else if g.ct == Roles(Delim) then
      GetThenBack(lx);
      Scanned(true, val, if IsWs(c) then g.lx else Back(g.lx, c))
    else if g.ct == Eof then
      Scanned(true, val, g.lx)
    else if g.ct == Unknown then
      Scanned(false, val, Raised(g.lx, Bad))
    else
      Scanned(false, val, Raised(g.lx, Mismatch))
  }

  /** A digit, already carrying the number's sign, is folded in with
      `tenfold`; when that fails the overflow bit is set and the rest of the
      number run is skipped, leaving whatever `tenfold` stored. */
  function Accumulate(t: IntType, policy: Policy, lx: Lexer, val: int, sign: int, digit: int): (r: Scanned)
    requires ScanState(t, val, sign) && sign != 0
    requires -9 <= digit <= 9 && (digit < 0 ==> t.signed)
    ensures InRange(t, r.val)
    ensures Follows(lx, r.lx)
    decreases Remaining(lx), 3
  {
    var step := Tenfold(t, policy, val, digit);
    if step.ok then
      Scan(t, policy, lx, step.val, sign)
    else
      var sk := SkipRun(Raised(lx, Overflow), Number);
      FollowsTransitive(lx, Raised(lx, Overflow), sk.lx);
      Scanned(sk.v, step.val, sk.lx)
  }

  /** `reader<T>::read`: the destination starts at zero; the next significant
      character must be numeric (`lexer::value`), then the scanner runs. */
  function ReadInt(t: IntType, policy: Policy, sc: Scanner, lx: Lexer): (r: Scanned)
    requires WellBehaved(sc)
    ensures InRange(t, r.val)
    ensures Follows(lx, r.lx)
    ensures !IsValid(sc.value(lx, Numeric).v) ==> !r.ok && r.val == 0
    ensures IsValid(sc.value(lx, Numeric).v) ==> r == Scan(t, policy, sc.value(lx, Numeric).lx, 0, 0)
  {
    var v := sc.value(lx, Numeric);
    LimitsFacts(t);
    if !IsValid(v.v) then Scanned(false, 0, v.lx)
    else
      var r := Scan(t, policy, v.lx, 0, 0);
      FollowsTransitive(lx, v.lx, r.lx);
      r
  }

  datatype BoolRead = BoolRead(ok: bool, val: bool, lx: Lexer)

  /** `reader<bool>::read`: `lexer::value` classifies a boolean literal; the
      literal `true` is reported as `boolean | value`.  On failure the
      destination is left as it was. */
  function ReadBool(sc: Scanner, lx: Lexer, val: bool): (r: BoolRead)
    requires WellBehaved(sc)
    ensures Follows(lx, r.lx)
    ensures r.ok <==> IsValid(sc.value(lx, Boolean).v)
    ensures !r.ok ==> r.val == val
    ensures r.ok ==> (r.val <==> sc.value(lx, Boolean).v == Roles(Boolean | Value))
  {
    var v := sc.value(lx, Boolean);
    if !IsValid(v.v) then BoolRead(false, val, v.lx)
    else BoolRead(true, v.v == Roles(Boolean | Value), v.lx)
  }
}
