/**
 * What `reader<T>::read` computes, stated against the decimal reading of the
 * input rather than against the scanner's steps: the sign rules, the two ways
 * a number ends, the outcome under each overflow policy, and reading back
 * the canonical spelling of any value of the type.
 */
module ScanFacts {
  import opened Errors
  import opened CharClass
  import opened Lexing
  import opened Arith
  import opened Decimal
  import opened Numbers
  import Output

  /** `x` with the sign `s` (1 or -1) applied. */
  function Signed(s: int, x: int): int {
    if s > 0 then x else -x
  }

  /** The nearest value of the type. */
  function Clamp(t: IntType, x: int): (r: int)
    ensures InRange(t, r)
    ensures InRange(t, x) ==> r == x
  {
    LimitsFacts(t);
    if x > Max(t) then Max(t) else if x < Min(t) then Min(t) else x
  }

  predicate Direction(t: IntType, s: int) {
    (s == 1 || s == -1) && (s == -1 ==> t.signed)
  }

  /** The characters still to be delivered are `run` followed by something
      that ends a number: a delimiter character, or the clean end of the
      stream.  The first of them may be the one held in the pushback slot,
      as it is when `lexer::value` has just classified it. */
  predicate RunThenEnd(lx: Lexer, run: string) {
    var p := Pending(lx);
    && |run| <= |p| && p[..|run|] == run
    && (if |run| < |p| then IsDelimChar(p[|run|]) else !lx.broken)
  }

  /** What is still pending once a number spanning `run` has ended at its
      delimiter: whitespace that ended it is consumed, any other delimiter
      is left pending. */
  function AfterNumber(lx: Lexer, run: string): seq<char> {
    var p := Pending(lx);
    if |run| < |p| && IsWs(p[|run|]) then p[|run| + 1..]
    else if |run| <= |p| then p[|run|..] else []
  }

  /** What is still pending once `skip(number)` has passed the rest of a
      run: the character that ended it, even whitespace, is pending again. */
  function AfterRun(lx: Lexer, run: string): seq<char> {
    var p := Pending(lx);
    if |run| <= |p| then p[|run|..] else []
  }

  /** The next character delivered, held or from the input, is `c`. */
  predicate NextIs(lx: Lexer, c: char) {
    Pending(lx) != [] && Pending(lx)[0] == c
  }

  /** Reading the next pending character delivers it and leaves the rest. */
  lemma GetNext(lx: Lexer, c: char)
    requires NextIs(lx, c)
    ensures Get(lx).ch == c && Get(lx).ct == CharType(c)
    ensures GetMasked(lx, Numeric).ct == NumericRole(c)
    ensures Pending(Get(lx).lx) == Pending(lx)[1..] && Get(lx).lx.hold == NoChar
    ensures Get(lx).lx.err == lx.err && Get(lx).lx.broken == lx.broken
  {
    GetPending(lx);
    NumericView(c);
  }

  /** Sign characters: one leading `-` for signed types; anything else is an
      error that stops the read, malformed or a type mismatch. */
  lemma SignRules(t: IntType, policy: Policy, lx: Lexer, val: int, sign: int, c: char)
    requires ScanState(t, val, sign) && NextIs(lx, c) && (c == '-' || c == '+')
    ensures var r := Scan(t, policy, lx, val, sign);
      && (c == '-' && t.signed && sign == 0 ==> r == Scan(t, policy, Get(lx).lx, val, -1))
      && (c == '-' && t.signed && sign != 0 ==> !r.ok && Has(r.lx.err, Bad))
      && (c == '-' && !t.signed && sign == 0 ==> !r.ok && Has(r.lx.err, Mismatch))
      && (c == '-' && !t.signed && sign != 0 ==> !r.ok && Has(r.lx.err, Bad))
      && (c == '+' ==> !r.ok && Has(r.lx.err, Bad))
  {
    GetNext(lx, c);
  }

  /** The scanner's turn on a delimiter. */
  lemma ScanAtDelimiter(t: IntType, policy: Policy, lx: Lexer, val: int, sign: int, c: char)
    requires ScanState(t, val, sign) && NextIs(lx, c) && IsDelimChar(c)
    ensures Scan(t, policy, lx, val, sign)
         == Scanned(true, val, if IsWs(c) then Get(lx).lx else Back(Get(lx).lx, c))
  {
    GetNext(lx, c);
    assert GetMasked(lx, Numeric).ct == Roles(Delim);
  }

  /** A delimiter ends the number with its value kept; it is consumed when it
      is whitespace and otherwise pushed back, so that it is still pending. */
  lemma EndsAtDelimiter(t: IntType, policy: Policy, lx: Lexer, val: int, sign: int, c: char)
    requires ScanState(t, val, sign) && NextIs(lx, c) && IsDelimChar(c)
    ensures var r := Scan(t, policy, lx, val, sign);
      && r.ok && r.val == val
      && Pending(r.lx) == (if IsWs(c) then Pending(lx)[1..] else Pending(lx))
      && r.lx.err == lx.err
  {
    ScanAtDelimiter(t, policy, lx, val, sign, c);
    GetNext(lx, c);
    if !IsWs(c) {
      BackPending(Get(lx).lx, c);
      assert Pending(lx) == [c] + Pending(lx)[1..];
    }
  }

  /** The clean end of the stream ends the number with its value kept. */
  lemma EndsAtEof(t: IntType, policy: Policy, lx: Lexer, val: int, sign: int)
    requires ScanState(t, val, sign) && Pending(lx) == [] && !lx.broken
    ensures var r := Scan(t, policy, lx, val, sign);
      && r.ok && r.val == val
      && Has(r.lx.err, EndOfInput) && Pending(r.lx) == []
  {
    GetNothingPending(lx);
  }

  /** A number ends at a delimiter or at the clean end of the stream, with
      its value kept. */
  lemma Terminators(t: IntType, policy: Policy, lx: Lexer, val: int, sign: int)
    requires ScanState(t, val, sign) && RunThenEnd(lx, [])
    ensures Scan(t, policy, lx, val, sign).ok && Scan(t, policy, lx, val, sign).val == val
    ensures Pending(Scan(t, policy, lx, val, sign).lx) == AfterNumber(lx, [])
  {
    assert Pending(lx)[0..] == Pending(lx);
    if Pending(lx) != [] {
      EndsAtDelimiter(t, policy, lx, val, sign, Pending(lx)[0]);
    } else {
      EndsAtEof(t, policy, lx, val, sign);
    }
  }

  /** A pending digit is handed to `tenfold` with the digit's
      value, negated after a minus sign; a number without a sign is positive. */
  lemma DigitAccumulates(t: IntType, policy: Policy, lx: Lexer, val: int, sign: int, c: char)
    requires ScanState(t, val, sign) && NextIs(lx, c) && IsDigit(c)
    ensures var sg := if sign == 0 then 1 else sign;
      Scan(t, policy, lx, val, sign)
        == Accumulate(t, policy, Get(lx).lx, val, sg, Signed(sg, DigitValue(c)))
  {
    GetNext(lx, c);
    assert NumericRole(c) == Roles(Digit);
  }

  /** The scan goes on when `tenfold` succeeds. */
  lemma DigitContinues(t: IntType, policy: Policy, lx: Lexer, val: int, sign: int, c: char)
    requires ScanState(t, val, sign) && sign != 0 && NextIs(lx, c) && IsDigit(c)
    requires Tenfold(t, policy, val, Signed(sign, DigitValue(c))).ok
    ensures Scan(t, policy, lx, val, sign)
         == Scan(t, policy, Get(lx).lx, Tenfold(t, policy, val, Signed(sign, DigitValue(c))).val, sign)
  {
    DigitAccumulates(t, policy, lx, val, sign, c);
  }

  /** When `tenfold` fails, `overflow` is recorded and the rest of the
      number is skipped; the destination keeps what `tenfold` left in it. */
  lemma DigitOverflows(t: IntType, policy: Policy, lx: Lexer, val: int, sign: int, c: char)
    requires ScanState(t, val, sign) && NextIs(lx, c) && IsDigit(c)
    requires !Tenfold(t, policy, val, Signed(if sign == 0 then 1 else sign, DigitValue(c))).ok
    ensures var skip := SkipRun(Raised(Get(lx).lx, Overflow), Number);
      Scan(t, policy, lx, val, sign)
        == Scanned(skip.v, Tenfold(t, policy, val, Signed(if sign == 0 then 1 else sign, DigitValue(c))).val, skip.lx)
  {
    DigitAccumulates(t, policy, lx, val, sign, c);
  }

  /** One saturating step from a clamped accumulator is the clamp of the exact step. */
  lemma TenfoldSaturates(t: IntType, a: nat, s: int, d: nat)
    requires Direction(t, s) && d <= 9
    ensures Tenfold(t, Saturated, Clamp(t, Signed(s, a)), Signed(s, d))
         == Step(true, Clamp(t, Signed(s, 10 * a + d)))
  {
    LimitsFacts(t);
  }

  /** One digit under `saturated`. */
  lemma SaturatedStep(t: IntType, lx: Lexer, a: nat, s: int, c: char)
    requires Direction(t, s) && IsDigit(c) && NextIs(lx, c)
    ensures Scan(t, Saturated, lx, Clamp(t, Signed(s, a)), s)
         == Scan(t, Saturated, Get(lx).lx, Clamp(t, Signed(s, 10 * a + DigitValue(c))), s)
  {
    assert Tenfold(t, Saturated, Clamp(t, Signed(s, a)), Signed(if s == 0 then 1 else s, DigitValue(c)))
        == Step(true, Clamp(t, Signed(s, 10 * a + DigitValue(c)))) by {
      TenfoldSaturates(t, a, s, DigitValue(c) as nat);
    }
    DigitContinues(t, Saturated, lx, Clamp(t, Signed(s, a)), s, c);
  }

  /** Under `saturated` a run of digits reads as the clamp of its value,
      and the read ends right after the run. */
  lemma {:induction false} ScanSaturated(t: IntType, lx: Lexer, a: nat, s: int, ds: string)
    requires Direction(t, s) && AllDigits(ds) && RunThenEnd(lx, ds)
    ensures var r := Scan(t, Saturated, lx, Clamp(t, Signed(s, a)), s);
      r.ok && r.val == Clamp(t, Signed(s, Fold(a, ds))) && Pending(r.lx) == AfterNumber(lx, ds)
    decreases |ds|
  {
    if ds == [] {
      assert Fold(a, ds) == a;
      Terminators(t, Saturated, lx, Clamp(t, Signed(s, a)), s);
    } else {
      var c, rest := ds[0], ds[1..];
      var a' := 10 * a + DigitValue(c);
      var next := Get(lx).lx;
      assert Fold(a, ds) == Fold(a', rest);
      StepInto(lx, ds);
      AfterStep(lx, ds);
      SaturatedStep(t, lx, a, s, c);
      ScanSaturated(t, next, a', s, rest);
    }
  }

  /** Dropping the first character of a sequence that starts with `ds`
      leaves one that starts with the rest of `ds`. */
  lemma PrefixStep(p: seq<char>, ds: string)
    requires ds != [] && |ds| <= |p| && p[..|ds|] == ds
    ensures p[1..][..|ds| - 1] == ds[1..]
    ensures |ds| < |p| ==> p[1..][|ds| - 1] == p[|ds|]
  {
  }

  /** After one digit the rest of the run is still pending. */
  lemma StepInto(lx: Lexer, ds: string)
    requires RunThenEnd(lx, ds) && ds != []
    ensures RunThenEnd(Get(lx).lx, ds[1..])
    ensures NextIs(lx, ds[0])
  {
    var p := Pending(lx);
    GetPending(lx);
    PrefixStep(p, ds);
  }

  /** Reading the first character of the run moves neither end position. */
  lemma AfterStep(lx: Lexer, ds: string)
    requires RunThenEnd(lx, ds) && ds != []
    ensures AfterNumber(Get(lx).lx, ds[1..]) == AfterNumber(lx, ds)
    ensures AfterRun(Get(lx).lx, ds[1..]) == AfterRun(lx, ds)
  {
    var p := Pending(lx);
    GetPending(lx);
    assert p[1..][|ds| - 1..] == p[|ds|..];
    if |ds| < |p| {
      assert p[1..][|ds| - 1] == p[|ds|];
      assert p[1..][|ds|..] == p[|ds| + 1..];
    }
  }

  /** `lexer::skip(number)` after an overflow passes the rest of the digits
      and stops at the end of the number without failing. */
  lemma SkipRestOfNumber(lx: Lexer, ds: string)
    requires AllDigits(ds) && RunThenEnd(lx, ds)
    ensures SkipRun(lx, Number).v
    ensures Pending(SkipRun(lx, Number).lx) == AfterRun(lx, ds)
  {
    var p := Pending(lx);
    forall k | 0 <= k < |ds| ensures HasBits(CharType(ds[k]), Number) {
      NumberView(ds[k]);
    }
    if |ds| < |p| {
      var c, rest := p[|ds|], p[|ds| + 1..];
      assert p == ds + [c] + rest;
      NumberView(c);
      SkipPending(lx, Number, ds, c, rest);
      BackPending(SkipWhile(lx, Number).lx, c);
      assert p[|ds|..] == [c] + rest;
    } else {
      assert p == ds;
      SkipPendingAll(lx, Number, ds);
    }
  }

  /** After an overflow the rest of the digits are skipped, up to the
      character that ends the number, and the condition stays recorded. */
  lemma SkipAfterOverflow(lx: Lexer, ds: string)
    requires AllDigits(ds) && RunThenEnd(lx, ds)
    ensures var skip := SkipRun(Raised(lx, Overflow), Number);
      skip.v && Has(skip.lx.err, Overflow) && Pending(skip.lx) == AfterRun(lx, ds)
  {
    var raised := Raised(lx, Overflow);
    assert RunThenEnd(raised, ds);
    SkipRestOfNumber(raised, ds);
    IncludesKeeps(SkipRun(raised, Number).lx.err, raised.err, Overflow);
  }

  /** One digit under `error` that keeps the value in range. */
  lemma CheckedStep(t: IntType, lx: Lexer, a: nat, s: int, c: char)
    requires Direction(t, s) && IsDigit(c) && NextIs(lx, c)
    requires InRange(t, Signed(s, a)) && InRange(t, Signed(s, 10 * a + DigitValue(c)))
    ensures Scan(t, Error, lx, Signed(s, a), s)
         == Scan(t, Error, Get(lx).lx, Signed(s, 10 * a + DigitValue(c)), s)
  {
    assert Tenfold(t, Error, Signed(s, a), Signed(if s == 0 then 1 else s, DigitValue(c)))
        == Step(true, Signed(s, 10 * a + DigitValue(c)));
    DigitContinues(t, Error, lx, Signed(s, a), s, c);
  }

  /** Once the accumulated magnitude is out of range, more digits keep its clamp. */
  lemma ClampStays(t: IntType, s: int, a: nat, ds: string)
    requires Direction(t, s) && AllDigits(ds) && !InRange(t, Signed(s, a))
    ensures Clamp(t, Signed(s, Fold(a, ds))) == Clamp(t, Signed(s, a))
  {
    FoldGrows(a, ds);
  }

  /** Under `error`, a step that leaves the range fails and stores the limit. */
  lemma TenfoldOverflows(t: IntType, a: nat, s: int, d: nat)
    requires Direction(t, s) && d <= 9
    requires InRange(t, Signed(s, a)) && !InRange(t, Signed(s, 10 * a + d))
    ensures Tenfold(t, Error, Signed(s, a), Signed(s, d)) == Step(false, Clamp(t, Signed(s, 10 * a + d)))
  {
    LimitsFacts(t);
  }

  /** The digit that leaves the range under `error`: the limit is stored,
      `overflow` recorded, and the rest of the number skipped. */
  lemma CheckedOverflow(t: IntType, lx: Lexer, a: nat, s: int, c: char, rest: string)
    requires Direction(t, s) && IsDigit(c) && NextIs(lx, c)
    requires AllDigits(rest) && RunThenEnd(Get(lx).lx, rest)
    requires InRange(t, Signed(s, a)) && !InRange(t, Signed(s, 10 * a + DigitValue(c)))
    ensures var r := Scan(t, Error, lx, Signed(s, a), s);
      && r.ok && r.val == Clamp(t, Signed(s, 10 * a + DigitValue(c)))
      && Has(r.lx.err, Overflow) && Pending(r.lx) == AfterRun(Get(lx).lx, rest)
  {
    assert s == if s == 0 then 1 else s;
    assert Tenfold(t, Error, Signed(s, a), Signed(if s == 0 then 1 else s, DigitValue(c)))
        == Step(false, Clamp(t, Signed(s, 10 * a + DigitValue(c)))) by {
      TenfoldOverflows(t, a, s, DigitValue(c) as nat);
    }
    DigitOverflows(t, Error, lx, Signed(s, a), s, c);
    SkipAfterOverflow(Get(lx).lx, rest);
  }

  /** The run of digits whose first digit leaves the range under `error`. */
  lemma CheckedOverflowRun(t: IntType, lx: Lexer, a: nat, s: int, ds: string)
    requires Direction(t, s) && AllDigits(ds) && RunThenEnd(lx, ds) && ds != []
    requires InRange(t, Signed(s, a)) && !InRange(t, Signed(s, 10 * a + DigitValue(ds[0])))
    ensures var r := Scan(t, Error, lx, Signed(s, a), s);
      && r.ok && r.val == Clamp(t, Signed(s, Fold(a, ds)))
      && Has(r.lx.err, Overflow) && Pending(r.lx) == AfterRun(lx, ds)
    ensures !InRange(t, Signed(s, Fold(a, ds)))
  {
    var c, rest := ds[0], ds[1..];
    var a' := 10 * a + DigitValue(c);
    assert Fold(a, ds) == Fold(a', rest);
    StepInto(lx, ds);
    AfterStep(lx, ds);
    CheckedOverflow(t, lx, a, s, c, rest);
    ClampStays(t, s, a', rest);
    FoldGrows(a', rest);
    LimitsFacts(t);
  }

  /** The outcome of reading a number whose exact value is `x` under `error`:
      success with the value clamped to the type; when it fits, the stream
      is left at `normal`; otherwise `overflow` is recorded and the stream is
      left at `skipped`. */
  predicate CheckedOutcome(t: IntType, r: Scanned, x: int, normal: seq<char>, skipped: seq<char>) {
    && r.ok && r.val == Clamp(t, x)
    && (InRange(t, x) ==> Pending(r.lx) == normal)
    && (!InRange(t, x) ==> Has(r.lx.err, Overflow) && Pending(r.lx) == skipped)
  }

  /** A first digit that keeps the value in range under `error`: the
      outcome of the whole run is that of the rest of it. */
  lemma CheckedFits(t: IntType, lx: Lexer, a: nat, s: int, ds: string)
    requires Direction(t, s) && AllDigits(ds) && RunThenEnd(lx, ds) && ds != []
    requires InRange(t, Signed(s, a)) && InRange(t, Signed(s, 10 * a + DigitValue(ds[0])))
    requires var a' := 10 * a + DigitValue(ds[0]);
      CheckedOutcome(t, Scan(t, Error, Get(lx).lx, Signed(s, a'), s), Signed(s, Fold(a', ds[1..])),
                     AfterNumber(Get(lx).lx, ds[1..]), AfterRun(Get(lx).lx, ds[1..]))
    ensures CheckedOutcome(t, Scan(t, Error, lx, Signed(s, a), s), Signed(s, Fold(a, ds)), AfterNumber(lx, ds), AfterRun(lx, ds))
  {
    assert Fold(a, ds) == Fold(10 * a + DigitValue(ds[0]), ds[1..]);
    StepInto(lx, ds);
    AfterStep(lx, ds);
    CheckedStep(t, lx, a, s, ds[0]);
  }

  /** Under `error` a run of digits reads exactly while it fits, and the
      read ends right after the run.  Otherwise the destination holds the
      limit, `overflow` is recorded, and the rest of the number is skipped
      so that the read still succeeds; that skip leaves the character that
      ended the number pending, even whitespace. */
  lemma {:induction false} ScanChecked(t: IntType, lx: Lexer, a: nat, s: int, ds: string)
    requires Direction(t, s) && AllDigits(ds) && RunThenEnd(lx, ds)
    requires InRange(t, Signed(s, a))
    ensures CheckedOutcome(t, Scan(t, Error, lx, Signed(s, a), s), Signed(s, Fold(a, ds)), AfterNumber(lx, ds), AfterRun(lx, ds))
    decreases |ds|
  {
    if ds == [] {
      assert Fold(a, ds) == a;
      Terminators(t, Error, lx, Signed(s, a), s);
    } else if InRange(t, Signed(s, 10 * a + DigitValue(ds[0]))) {
      StepInto(lx, ds);
      ScanChecked(t, Get(lx).lx, 10 * a + DigitValue(ds[0]), s, ds[1..]);
      CheckedFits(t, lx, a, s, ds);
    } else {
      CheckedOverflowRun(t, lx, a, s, ds);
    }
  }

  /** One unchecked step keeps the accumulator congruent to the exact value. */
  lemma TenfoldWraps(t: IntType, val: int, a: nat, s: int, d: nat)
    requires Direction(t, s) && d <= 9 && InRange(t, val)
    requires (val - Signed(s, a)) % Modulus(t) == 0
    ensures Tenfold(t, Ignored, val, Signed(s, d)).ok
    ensures (Tenfold(t, Ignored, val, Signed(s, d)).val - Signed(s, 10 * a + d)) % Modulus(t) == 0
  {
    LimitsFacts(t);
    var r := Tenfold(t, Ignored, val, Signed(s, d)).val;
    assert Signed(s, 10 * a + d) == 10 * Signed(s, a) + Signed(s, d);
    StepCongruent(r, val, Signed(s, a), Signed(s, d), Modulus(t));
  }

  /** At the end of the run the congruent in-range accumulator is the wrapped value. */
  lemma WrappedEnd(t: IntType, val: int, a: nat, s: int)
    requires InRange(t, val) && (val - Signed(s, a)) % Modulus(t) == 0
    ensures val == Wrap(t, Signed(s, a))
  {
    LimitsFacts(t);
    var w := Wrap(t, Signed(s, a));
    CongruentSymmetric(w, Signed(s, a), Modulus(t));
    Congruent(val, Signed(s, a), w, 1, Modulus(t));
    CongruentInWindow(val, w, Min(t), Modulus(t));
  }

  /** The accumulator after folding the digits of `ds` into `val` with
      `tenfold` under `ignored`. */
  function WrapFold(t: IntType, val: int, s: int, ds: string): (r: int)
    requires Direction(t, s) && AllDigits(ds) && InRange(t, val)
    ensures InRange(t, r)
    decreases |ds|
  {
    if ds == [] then val
    else WrapFold(t, Tenfold(t, Ignored, val, Signed(s, DigitValue(ds[0]))).val, s, ds[1..])
  }

  /** Under `ignored` the scanner folds every digit of the run with `tenfold`
      and succeeds at the end of the number. */
  lemma {:induction false} ScanIgnored(t: IntType, lx: Lexer, val: int, s: int, ds: string)
    requires Direction(t, s) && AllDigits(ds) && RunThenEnd(lx, ds) && InRange(t, val)
    ensures Scan(t, Ignored, lx, val, s).ok && Scan(t, Ignored, lx, val, s).val == WrapFold(t, val, s, ds)
    ensures Pending(Scan(t, Ignored, lx, val, s).lx) == AfterNumber(lx, ds)
    decreases |ds|
  {
    if ds == [] {
      Terminators(t, Ignored, lx, val, s);
    } else {
      StepInto(lx, ds);
      AfterStep(lx, ds);
      DigitContinues(t, Ignored, lx, val, s, ds[0]);
      ScanIgnored(t, Get(lx).lx, Tenfold(t, Ignored, val, Signed(s, DigitValue(ds[0]))).val, s, ds[1..]);
    }
  }

  /** The `ignored` fold of a run from an accumulator congruent to `a` is the
      wrapped value of the run read onto `a`. */
  lemma {:induction false} WrapFoldIsWrap(t: IntType, val: int, a: nat, s: int, ds: string)
    requires Direction(t, s) && AllDigits(ds) && InRange(t, val)
    requires (val - Signed(s, a)) % Modulus(t) == 0
    ensures WrapFold(t, val, s, ds) == Wrap(t, Signed(s, Fold(a, ds)))
    decreases |ds|
  {
    if ds == [] {
      assert Fold(a, ds) == a;
      WrappedEnd(t, val, a, s);
    } else {
      var c, rest := ds[0], ds[1..];
      var a' := 10 * a + DigitValue(c);
      assert Fold(a, ds) == Fold(a', rest);
      TenfoldWraps(t, val, a, s, DigitValue(c) as nat);
      WrapFoldIsWrap(t, Tenfold(t, Ignored, val, Signed(s, DigitValue(c))).val, a', s, rest);
    }
  }

  /** Under `ignored` a run of digits reads as its value wrapped to the
      type's width, taking the unchecked arithmetic of `tenfold` to wrap on
      overflow (undefined in C++ for `int` and `long`). */
  lemma ScanWrapped(t: IntType, lx: Lexer, val: int, a: nat, s: int, ds: string)
    requires Direction(t, s) && AllDigits(ds) && RunThenEnd(lx, ds)
    requires InRange(t, val) && (val - Signed(s, a)) % Modulus(t) == 0
    ensures var r := Scan(t, Ignored, lx, val, s);
      r.ok && r.val == Wrap(t, Signed(s, Fold(a, ds))) && Pending(r.lx) == AfterNumber(lx, ds)
  {
    ScanIgnored(t, lx, val, s, ds);
    WrapFoldIsWrap(t, val, a, s, ds);
  }

  /** Before any sign, a leading digit starts an unsigned number. */
  lemma UnsignedStart(t: IntType, policy: Policy, lx: Lexer, c: char)
    requires NextIs(lx, c) && IsDigit(c)
    ensures Scan(t, policy, lx, 0, 0) == Scan(t, policy, lx, 0, 1)
  {
    GetNext(lx, c);
  }

  /** A run of digits whose signed value fits reads as that value, under
      every overflow policy, and the read ends right after the run. */
  lemma ReadsDigits(t: IntType, policy: Policy, lx: Lexer, s: int, ds: string)
    requires Direction(t, s) && AllDigits(ds) && RunThenEnd(lx, ds)
    requires InRange(t, Signed(s, Fold(0, ds)))
    ensures Scan(t, policy, lx, 0, s).ok && Scan(t, policy, lx, 0, s).val == Signed(s, Fold(0, ds))
    ensures Pending(Scan(t, policy, lx, 0, s).lx) == AfterNumber(lx, ds)
  {
    LimitsFacts(t);
    assert Signed(s, 0) == 0;
    match policy
    case Saturated =>
      ScanSaturated(t, lx, 0, s, ds);
    case Error =>
      ScanChecked(t, lx, 0, s, ds);
    case Ignored =>
      DivUnique(0, Modulus(t), 0, 0);
      ScanWrapped(t, lx, 0, 0, s, ds);
  }

  /** Every value of the type reads back from its canonical spelling, under
      every overflow policy, and the read ends right after the spelling. */
  lemma ReadsSpelling(t: IntType, policy: Policy, lx: Lexer, n: int)
    requires InRange(t, n) && RunThenEnd(lx, Spelling(n))
    ensures Scan(t, policy, lx, 0, 0).ok && Scan(t, policy, lx, 0, 0).val == n
    ensures Pending(Scan(t, policy, lx, 0, 0).lx) == AfterNumber(lx, Spelling(n))
  {
    LimitsFacts(t);
    var s := if n < 0 then -1 else 1;
    var ds := DecimalDigits(if n < 0 then -n else n);
    ValueOfDecimalDigits(if n < 0 then -n else n);
    assert Signed(s, Fold(0, ds)) == n;
    var start := lx;
    if n < 0 {
      StepInto(lx, Spelling(n));
      AfterStep(lx, Spelling(n));
      assert Spelling(n)[1..] == ds;
      SignRules(t, policy, lx, 0, 0, '-');
      start := Get(lx).lx;
    } else {
      assert Spelling(n) == ds;
      StepInto(lx, ds);
      UnsignedStart(t, policy, lx, ds[0]);
    }
    ReadsDigits(t, policy, start, s, ds);
  }

  /** `reader<T>::read` takes the canonical spelling of every value of the
      type back to that value, under every overflow policy.  `lexer::value`
      has classified the number's first character and left it pending, held
      in the pushback slot, and the scanner starts from there; the read ends
      right after the spelling. */
  lemma ReadIntSpelling(t: IntType, policy: Policy, sc: Scanner, lx: Lexer, n: int)
    requires WellBehaved(sc) && InRange(t, n)
    requires IsValid(sc.value(lx, Numeric).v) && RunThenEnd(sc.value(lx, Numeric).lx, Spelling(n))
    ensures ReadInt(t, policy, sc, lx).ok && ReadInt(t, policy, sc, lx).val == n
    ensures Pending(ReadInt(t, policy, sc, lx).lx) == AfterNumber(sc.value(lx, Numeric).lx, Spelling(n))
  {
    ReadsSpelling(t, policy, sc.value(lx, Numeric).lx, n);
  }

  /** What `writer<T>::write` puts into an empty buffer with room for it,
      `reader<T>::read` takes back to the written value, once the text is
      followed by a delimiter or the clean end of the stream. */
  lemma WriteThenRead(t: IntType, policy: Policy, n: int, room: nat, err: Register, sc: Scanner, lx: Lexer)
    requires WellBehaved(sc) && InRange(t, n) && |Spelling(n)| <= room
    requires IsValid(sc.value(lx, Numeric).v)
    requires RunThenEnd(sc.value(lx, Numeric).lx, Output.Emit(Output.Sink([], room, err), Spelling(n)).out.text)
    ensures ReadInt(t, policy, sc, lx).ok && ReadInt(t, policy, sc, lx).val == n
  {
    Output.WrittenIsSpelling(n, room, err);
    ReadIntSpelling(t, policy, sc, lx, n);
  }

  /** What `reader<bool>::read` relies on from `lexer::value(boolean)` at
      `l`: the literal `true`, ending at a delimiter or the clean end of the
      stream, is classified `boolean | value`; the literal `false` is
      classified validly as something else. */
  ghost predicate ClassifiesBooleanAt(sc: Scanner, l: Lexer) {
    && (RunThenEnd(l, "true") ==> sc.value(l, Boolean).v == Roles(Boolean | Value))
    && (RunThenEnd(l, "false") ==>
          IsValid(sc.value(l, Boolean).v) && sc.value(l, Boolean).v != Roles(Boolean | Value))
  }

  ghost predicate ClassifiesBooleans(sc: Scanner) {
    forall l {:trigger ClassifiesBooleanAt(sc, l)} :: ClassifiesBooleanAt(sc, l)
  }

  /** What `writer<bool>::write` puts into an empty buffer with room for it,
      `reader<bool>::read` takes back to the written value, whatever the
      destination held before. */
  lemma BoolWriteThenRead(b: bool, room: nat, err: Register, sc: Scanner, lx: Lexer, prior: bool)
    requires WellBehaved(sc) && ClassifiesBooleans(sc) && room >= 5
    requires RunThenEnd(lx, Output.WriteBool(b, Output.Sink([], room, err)).out.text)
    ensures ReadBool(sc, lx, prior).ok && ReadBool(sc, lx, prior).val == b
  {
    assert Output.WriteBool(b, Output.Sink([], room, err)).out.text == if b then "true" else "false";
    assert ClassifiesBooleanAt(sc, lx);
  }
}
