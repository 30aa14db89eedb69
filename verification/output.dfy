/**
 * The writing half: a bounded character sink, `write_number` and the integer
 * writer, and the continuation protocol of `array::write` and `clas::write`.
 *
 * The sink is the one `abuffer::put` implements: a fixed number of free
 * slots; a put into a full buffer fails and records the end-of-stream
 * condition.  Writers whose bodies are not part of this model (the quoted
 * member-name writer, the item and property writers) are represented by the
 * text they put, one character at a time, stopping at the first failed put.
 */
module Output {
  import opened Errors
  import opened Literals
  import opened Decimal
  import opened Numbers

  /** The text written so far, the free slots left, and the stream's register. */
  datatype Sink = Sink(text: string, room: nat, err: Register)

  /** The result of a write: success and the sink afterwards. */
  datatype Wrote = Wrote(ok: bool, out: Sink)

  /** A full sink whose register already records the failed put. */
  predicate Exhausted(out: Sink) {
    out.room == 0 && Has(out.err, EndOfInput)
  }

  function Min(a: nat, b: nat): nat {
    if a <= b then a else b
  }

  /** `abuffer::put`: store one character, or fail on a full buffer and
      record the end of the stream. */
  function Put(out: Sink, c: char): (r: Wrote)
    ensures r.ok <==> out.room > 0
    ensures r.ok ==> r.out == Sink(out.text + [c], out.room - 1, out.err)
    ensures !r.ok ==> r.out.text == out.text && Exhausted(r.out) && Includes(r.out.err, out.err)
  {
    if out.room == 0 then Wrote(false, out.(err := RaiseFlag(out.err, EndOfInput)))
    else Wrote(true, Sink(out.text + [c], out.room - 1, out.err))
  }

  /** Put the characters of `s` in order, giving up at the first failed put,
      as every writer here does. */
  function Emit(out: Sink, s: string): (r: Wrote)
    ensures r.ok <==> |s| <= out.room
    ensures r.out.text == out.text + s[..Min(|s|, out.room)]
    ensures r.out.room == out.room - Min(|s|, out.room)
    ensures r.ok ==> r.out.err == out.err
    ensures !r.ok ==> Exhausted(r.out)
    ensures Includes(r.out.err, out.err)
    decreases |s|
  {
    if s == [] then Wrote(true, out)
    else
      var w := Put(out, s[0]);
      if !w.ok then w
      else
        var r := Emit(w.out, s[1..]);
        assert s[..Min(|s|, out.room)] == [s[0]] + s[1..][..Min(|s| - 1, out.room - 1)];
        r
  }

  /** Continue a write with `s` only if it has succeeded so far (`&&`). */
  function Then(w: Wrote, s: string): Wrote {
    if w.ok then Emit(w.out, s) else w
  }

  /** Writing two texts one after the other is writing their concatenation. */
  lemma {:induction false} EmitAppend(out: Sink, a: string, b: string)
    ensures Emit(out, a + b) == Then(Emit(out, a), b)
    decreases |a|
  {
    if a != [] {
      assert (a + b)[0] == a[0];
      assert (a + b)[1..] == a[1..] + b;
      var w := Put(out, a[0]);
      if w.ok {
        EmitAppend(w.out, a[1..], b);
      }
    } else {
      assert a + b == b;
    }
  }

  /** Once the buffer is full, every further put fails and changes nothing. */
  lemma EmitExhausted(out: Sink, s: string)
    requires Exhausted(out) && s != []
    ensures Emit(out, s) == Wrote(false, out)
  {
    assert RaiseFlag(out.err, EndOfInput) == out.err;
  }

  /** How `write_number` shows a fixed-width digit string: a digit is put
      when it is not zero, when a digit was already put, or when it is the
      last one. */
  function Shown(ds: string, was: bool): string
    decreases |ds|
  {
    if ds == [] then []
    else if ds[0] != '0' || was || |ds| == 1 then [ds[0]] + Shown(ds[1..], true)
    else Shown(ds[1..], false)
  }

  /** After the first digit put every digit is put; before it, leading zeros
      are dropped.  So the rule shows exactly the stripped digit string. */
  lemma {:induction false} ShownIsStrip(ds: string, was: bool)
    requires |ds| >= 1
    ensures Shown(ds, was) == if was then ds else Strip(ds)
    decreases |ds|
  {
    if |ds| > 1 {
      if ds[0] != '0' || was {
        ShownIsStrip(ds[1..], true);
        assert ds == [ds[0]] + ds[1..];
      } else {
        ShownIsStrip(ds[1..], false);
      }
    }
  }

  /** The `i`-th character of the fixed-width view is the digit at place `k - i`. */
  lemma {:induction false} DigitsAt(val: nat, k: nat, i: nat)
    requires i <= k
    ensures Digits(val, k)[i] == DigitChar(Place(val, k - i))
    decreases i
  {
    if i > 0 {
      DigitsAt(val, k - 1, i - 1);
    }
  }

  lemma Pow10Down(j: nat)
    ensures Pow10(j) / 10 == if j == 0 then 0 else Pow10(j - 1)
  {
  }

  /** Putting a character, then the rest. */
  lemma EmitCons(out: Sink, c: char, x: string)
    ensures Emit(out, [c] + x) == if Put(out, c).ok then Emit(Put(out, c).out, x) else Put(out, c)
  {
    assert ([c] + x)[0] == c && ([c] + x)[1..] == x;
  }

  /** The digit `write_number` computes at step `m` is the `m`-th character
      of the fixed-width view. */
  lemma DigitStep(val: nat, k: nat, m: nat)
    requires m <= k
    ensures (val / Pow10(k - m)) % 10 < 10
    ensures Digits(val, k)[m] == DigitChar((val / Pow10(k - m)) % 10)
    ensures (val / Pow10(k - m)) % 10 != 0 <==> Digits(val, k)[m] != '0'
  {
    DigitsAt(val, k, m);
  }

  /** One step of the showing rule. */
  lemma ShownStep(ds: string, m: nat, was: bool)
    requires m < |ds|
    ensures Shown(ds[m..], was) ==
      if ds[m] != '0' || was || m + 1 == |ds| then [ds[m]] + Shown(ds[m + 1..], true)
      else Shown(ds[m + 1..], false)
  {
    assert ds[m..][0] == ds[m] && ds[m..][1..] == ds[m + 1..];
  }

  /** One turn of the `write_number` loop at place `m`: the digit is shown
      when it is nonzero, a digit was already shown, or it is the last one;
      the divider drops to the next place, or to zero after the last. */
  lemma WriteStep(val: nat, k: nat, m: nat, res: Sink, was: bool)
    requires m <= k
    ensures var digit := (val / Pow10(k - m)) % 10;
      var ds := Digits(val, k);
      && digit < 10
      && Pow10(k - m) / 10 == (if m == k then 0 else Pow10(k - (m + 1)))
      && Emit(res, Shown(ds[m..], was)) ==
           if digit != 0 || was || Pow10(k - m) / 10 == 0 then
             if Put(res, DigitChar(digit)).ok then Emit(Put(res, DigitChar(digit)).out, Shown(ds[m + 1..], true))
             else Put(res, DigitChar(digit))
           else Emit(res, Shown(ds[m + 1..], false))
  {
    var ds := Digits(val, k);
    Pow10Down(k - m);
    DigitStep(val, k, m);
    ShownStep(ds, m, was);
    EmitCons(res, ds[m], Shown(ds[m + 1..], true));
  }

  /** The body of the `write_number` loop at place `m` (divider `d`): put
      the digit if the showing rule asks for it, and divide the divider by
      ten.  Either the put failed, and that failure is what writing the rest
      of the digits gives, or the rest is still to be written from the next
      place. */
  method WriteDigit(val: nat, d: nat, res: Sink, was: bool, ghost k: nat, ghost m: nat)
    returns (failed: bool, next: Sink, shown: bool, d': nat)
    requires m <= k && d == Pow10(k - m)
    ensures d' == if m == k then 0 else Pow10(k - (m + 1))
    ensures failed ==> Emit(res, Shown(Digits(val, k)[m..], was)) == Wrote(false, next)
    ensures !failed ==> Emit(res, Shown(Digits(val, k)[m..], was)) == Emit(next, Shown(Digits(val, k)[m + 1..], shown))
  {
    WriteStep(val, k, m, res, was);
    var digit := (val / d) % 10;
    d' := d / 10;
    if digit != 0 || was || d' == 0 {
      var p := Put(res, DigitChar(digit));
      failed, next, shown := !p.ok, p.out, true;
    } else {
      failed, next, shown := false, res, was;
    }
  }

  /** What `write_number` puts: the sign, then the fixed-width digits as
      the showing rule shows them. */
  lemma WriteNumberPlan(val: nat, k: nat, out: Sink, sign: string)
    requires val < Pow10(k + 1)
    ensures Emit(out, sign + DecimalDigits(val)) == Then(Emit(out, sign), Shown(Digits(val, k), false))
  {
    StripDigits(val, k);
    ShownIsStrip(Digits(val, k), false);
    EmitAppend(out, sign, DecimalDigits(val));
  }

  /** `write_number`: an optional minus sign, then the digits of `val` from
      the place of `divider` down, leading zeros suppressed but the last
      digit always put.  `divider` is a power of ten large enough for `val`. */
  method WriteNumber(val: nat, negative: bool, divider: nat, out: Sink, ghost k: nat) returns (w: Wrote)
    requires divider == Pow10(k) && val < 10 * divider
    ensures w == Emit(out, (if negative then "-" else "") + DecimalDigits(val))
  {
    ghost var ds := Digits(val, k);
    ghost var goal := Emit(out, (if negative then "-" else "") + DecimalDigits(val));
    WriteNumberPlan(val, k, out, if negative then "-" else "");
    var was := false;
    var res := out;
    if negative {
      EmitCons(out, Minus, []);
      var p := Put(out, Minus);
      if !p.ok {
        return p;
      }
      res := p.out;
    }
    var d := divider;
    ghost var m := 0;
    assert ds[m..] == ds;
    while d != 0
      invariant m <= k + 1
      invariant d == if m <= k then Pow10(k - m) else 0
      invariant Emit(res, Shown(ds[m..], was)) == goal
      decreases k + 1 - m
    {
      var failed, next, shown, d' := WriteDigit(val, d, res, was, k, m);
      if failed {
        return Wrote(false, next);
      }
      res, was, d := next, shown, d';
      m := m + 1;
    }
    assert ds[m..] == [];
    return Wrote(true, res);
  }

  /** The power of ten the integer writer starts from: the place of the
      leading digit of the widest magnitude of the type. */
  function PotExponent(t: IntType): (k: nat)
    ensures Modulus(t) <= 10 * Pow10(k)
  {
    match t.width
    case W8 => assert Pow10(3) == 1000; 2
    case W16 => assert Pow10(5) == 100000; 4
    case W32 => assert Pow10(10) == 10000000000; 9
    case W64 => assert Pow10(20) == 100000000000000000000; 19
  }

  /** `writer<T>::write` for an integral `T`: the magnitude and the sign of
      the value handed to `write_number`. */
  method WriteInt(t: IntType, n: int, out: Sink) returns (w: Wrote)
    requires InRange(t, n)
    ensures w == Emit(out, Spelling(n))
  {
    LimitsFacts(t);
    var k := PotExponent(t);
    var magnitude := if n < 0 then -n else n;
    w := WriteNumber(magnitude, n < 0, Pow10(k), out, k);
  }

  /** `writer<bool>::write`: the literal `true` or `false`. */
  function WriteBool(val: bool, out: Sink): (w: Wrote)
    ensures w.ok <==> out.room >= (if val then 4 else 5)
    ensures w.ok ==> w.out == Sink(out.text + (if val then "true" else "false"), out.room - (if val then 4 else 5), out.err)
    ensures !w.ok ==> Exhausted(w.out)
  {
    Emit(out, if val then "true" else "false")
  }

  /** Any integer the writer puts into a buffer with room for it is exactly
      the canonical JSON spelling, which the reader takes back to the same
      value (see `ScanFacts.ReadsSpelling`). */
  lemma WrittenIsSpelling(n: int, room: nat, err: Register)
    requires |Spelling(n)| <= room
    ensures Emit(Sink([], room, err), Spelling(n)) == Wrote(true, Sink(Spelling(n), room - |Spelling(n)|, err))
  {
    assert Spelling(n)[..|Spelling(n)|] == Spelling(n);
  }

  /** The separator `array::dlm` puts before item `i`. */
  function Separator(i: nat, open: char): char {
    if i == 0 then open else ValueSeparator
  }

  /** The text still to be written at the head of the array loop. */
  function ArrayRest(items: seq<string>, i: nat): string
    requires i < |items|
  {
    [Separator(i, BeginArray)] + JoinFrom(items, i) + [EndArray]
  }

  lemma ArrayRestStep(items: seq<string>, i: nat)
    requires i < |items|
    ensures ArrayRest(items, i) ==
      [Separator(i, BeginArray)] + (items[i] + (if i + 1 < |items| then ArrayRest(items, i + 1) else [EndArray]))
  {
  }

  /** `array::write` with `array::dlm` and `array::end`: put `[` or `,`,
      then the item, while the item writer reports that more items follow
      (the item's own result is ignored); then put `]`.  Every array has at
      least one item here (see README). */
  method ArrayWrite(items: seq<string>, out: Sink) returns (w: Wrote)
    requires |items| >= 1
    ensures w == Emit(out, ArrayText(items))
  {
    ghost var goal := Emit(out, ArrayText(items));
    var res := out;
    var i := 0;
    while true
      invariant i < |items|
      invariant Emit(res, ArrayRest(items, i)) == goal
      decreases |items| - i
    {
      ArrayRestStep(items, i);
      var more := i + 1 < |items|;
      var tail := if more then ArrayRest(items, i + 1) else [EndArray];
      var d := Put(res, Separator(i, BeginArray));
      if !d.ok {
        EmitExhausted(d.out, [EndArray]);
        res := d.out;
        break;
      }
      EmitAppend(d.out, items[i], tail);
      var item := Emit(d.out, items[i]);
      res := item.out;
      if !item.ok {
        EmitExhausted(res, tail);
      }
      if !more {
        break;
      }
      i := i + 1;
    }
    w := Put(res, EndArray);
  }

  /** One property as `clas::write` sees it: the member name as the name
      writer puts it (quoted and escaped) and the text the property writer puts. */
  datatype Property = Property(name: string, text: string)

  /** A member as section 4 of RFC 8259 lays it out: name, colon, value. */
  function MemberText(p: Property): string {
    p.name + ([NameSeparator] + p.text)
  }

  function MemberTexts(props: seq<Property>): (r: seq<string>) {
    seq(|props|, i requires 0 <= i < |props| => MemberText(props[i]))
  }

  /** A JSON object of already written members (section 4 of RFC 8259). */
  function ObjectText(props: seq<Property>): string {
    [BeginObject] + Join(MemberTexts(props)) + [EndObject]
  }

  /** The loop of `clas::write` from property `i` on, `w` the result so far:
      `object::dlm`, `member::prolog` (name, then `:`) and the property's
      writer, stopping at the first failure. */
  function ClasLoop(props: seq<Property>, i: nat, w: Wrote): (r: Wrote)
    requires i <= |props|
    ensures !w.ok ==> r == w
    ensures w.out.text <= r.out.text
    ensures |r.out.text| + r.out.room == |w.out.text| + w.out.room
    decreases |props| - i
  {
    if i < |props| && w.ok then
      var p := props[i];
      ClasLoop(props, i + 1, Then(Then(Then(Then(w, [Separator(i, BeginObject)]), p.name), [NameSeparator]), p.text))
    else w
  }

  /** The members still to be written at the head of the loop. */
  function MembersFrom(props: seq<Property>, i: nat): string
    requires i < |props|
    decreases |props| - i
  {
    [Separator(i, BeginObject)] + (MemberText(props[i]) + (if i + 1 < |props| then MembersFrom(props, i + 1) else []))
  }

  /** Continuing twice is continuing with the concatenation. */
  lemma ThenThen(w: Wrote, a: string, b: string)
    ensures Then(Then(w, a), b) == Then(w, a + b)
  {
    if w.ok {
      EmitAppend(w.out, a, b);
    }
  }

  /** One turn of the loop: the separator, then the member. */
  lemma ClasTurn(w: Wrote, i: nat, p: Property)
    ensures Then(Then(Then(Then(w, [Separator(i, BeginObject)]), p.name), [NameSeparator]), p.text) ==
      Then(Then(w, [Separator(i, BeginObject)]), MemberText(p))
  {
    var x := Then(w, [Separator(i, BeginObject)]);
    ThenThen(Then(x, p.name), [NameSeparator], p.text);
    ThenThen(x, p.name, [NameSeparator] + p.text);
  }

  lemma {:induction false} ClasLoopEmits(props: seq<Property>, i: nat, out: Sink)
    requires i < |props|
    ensures ClasLoop(props, i, Wrote(true, out)) == Emit(out, MembersFrom(props, i))
    decreases |props| - i
  {
    var p := props[i];
    var tail := if i + 1 < |props| then MembersFrom(props, i + 1) else [];
    ClasTurn(Wrote(true, out), i, p);
    EmitAppend(out, [Separator(i, BeginObject)], MemberText(p) + tail);
    var w1 := Emit(out, [Separator(i, BeginObject)]);
    if w1.ok {
      EmitAppend(w1.out, MemberText(p), tail);
      var w2 := Emit(w1.out, MemberText(p));
      if w2.ok && i + 1 < |props| {
        ClasLoopEmits(props, i + 1, w2.out);
      }
    }
  }

  lemma {:induction false} MembersFromJoin(props: seq<Property>, i: nat)
    requires i < |props|
    ensures MembersFrom(props, i) == [Separator(i, BeginObject)] + JoinFrom(MemberTexts(props), i)
    decreases |props| - i
  {
    if i + 1 < |props| {
      MembersFromJoin(props, i + 1);
    }
  }

  /** `clas::write` as the source has it: with at least one property the
      result is the JSON object of the members; with none, the loop never
      runs, nothing opens the object and only `}` is put. */
  function ClasWriteAsWritten(props: seq<Property>, out: Sink): (w: Wrote)
    ensures |props| >= 1 ==> w == Emit(out, ObjectText(props))
    ensures |props| == 0 ==> w == Emit(out, [EndObject])
  {
    var r := ClasLoop(props, 0, Wrote(true, out));
    ClasLoopThenEnd(props, out);
    if r.ok then Emit(r.out, [EndObject]) else r
  }

  lemma ClasLoopThenEnd(props: seq<Property>, out: Sink)
    ensures Then(ClasLoop(props, 0, Wrote(true, out)), [EndObject]) ==
      Emit(out, if props == [] then [EndObject] else ObjectText(props))
  {
    if props != [] {
      ClasLoopEmits(props, 0, out);
      MembersFromJoin(props, 0);
      EmitAppend(out, MembersFrom(props, 0), [EndObject]);
    }
  }

  /** `clas::write` as intended: the object is opened even when it has no
      properties, so every class is written as a JSON object. */
  function ClasWrite(props: seq<Property>, out: Sink): (w: Wrote)
    ensures w == Emit(out, ObjectText(props))
  {
    if props == [] then
      assert ObjectText(props) == [BeginObject, EndObject];
      EmitAppend(out, [BeginObject], [EndObject]);
      Then(Emit(out, [BeginObject]), [EndObject])
    else ClasWriteAsWritten(props, out)
  }

  /** A class with no properties is written as a lone `}` by the source, and
      as `{}` by the corrected writer. */
  lemma EmptyClassWrite()
    ensures ClasWriteAsWritten([], Sink([], 2, NoError)).out.text == [EndObject]
    ensures ClasWrite([], Sink([], 2, NoError)).out.text == [BeginObject, EndObject]
  {
  }
}
