/**
 * The sticky error register of a cojson stream (`error_t` and `iostate`).
 *
 * The register is one byte of flags.  Conditions are ORed in and stay set
 * until an explicit clear; nothing clears a bit implicitly.
 */
module Errors {

  /** The register itself: `enum class error_t : unsigned char`. */
  type Register = bv8

  /** The eight individual conditions of `error_t`. */
  datatype Flag =
    | NotFound   // member not found
    | Mismatch   // data type mismatch
    | Overflow   // integer overflow
    | NoObject   // destination not available
    | Overrun    // array index beyond capacity
    | Bad        // malformed input
    | EndOfInput // end of stream
    | IoError    // stream failure

  const NoError: Register := 0x00

  /** The bit each condition occupies. */
  function Mask(f: Flag): Register {
    match f
    case NotFound => 0x01
    case Mismatch => 0x02
    case Overflow => 0x04
    case NoObject => 0x08
    case Overrun => 0x10
    case Bad => 0x20
    case EndOfInput => 0x40
    case IoError => 0x80
  }

  /** The composite `failed`: an unrecoverable condition. */
  const Failed: Register := 0x80 | 0x20

  /** The composite `blocked`: `failed` or a type mismatch. */
  const Blocked: Register := 0x80 | 0x20 | 0x02

  predicate Has(reg: Register, f: Flag) {
    reg & Mask(f) != 0
  }

  /** Every bit of `small` is also set in `big`. */
  predicate Includes(big: Register, small: Register) {
    big & small == small
  }

  /** A register is determined by the conditions it holds. */
  lemma FlagsDetermine(a: Register, b: Register)
    requires forall f: Flag :: Has(a, f) <==> Has(b, f)
    ensures a == b
  {
    assert Has(a, NotFound) == Has(b, NotFound);
    assert Has(a, Mismatch) == Has(b, Mismatch);
    assert Has(a, Overflow) == Has(b, Overflow);
    assert Has(a, NoObject) == Has(b, NoObject);
    assert Has(a, Overrun) == Has(b, Overrun);
    assert Has(a, Bad) == Has(b, Bad);
    assert Has(a, EndOfInput) == Has(b, EndOfInput);
    assert Has(a, IoError) == Has(b, IoError);
  }

  /** `iostate::error(e)`: OR the condition bits of `e` into the register. */
  function Raise(reg: Register, e: Register): (r: Register)
    ensures forall f: Flag :: Has(r, f) <==> Has(reg, f) || Has(e, f)
    ensures Includes(r, reg) && Includes(r, e)
  {
    reg | e
  }

  /** Raising a single condition. */
  function RaiseFlag(reg: Register, f: Flag): (r: Register)
    ensures Has(r, f)
    ensures forall g: Flag :: g != f ==> (Has(r, g) <==> Has(reg, g))
    ensures Includes(r, reg)
  {
    Raise(reg, Mask(f))
  }

  /** `iostate::clear()`: the register holds no condition afterwards. */
  function Clear(): (r: Register)
    ensures forall f: Flag :: !Has(r, f)
  {
    NoError
  }

  /** `iostate::isgood()`: neither an I/O fault nor malformed input. */
  function IsGood(reg: Register): (r: bool)
    ensures r <==> !Has(reg, IoError) && !Has(reg, Bad)
  {
    reg & Failed == NoError
  }

  /** `iostate::eof()`: the end-of-input bit is set. */
  function AtEof(reg: Register): (r: bool)
    ensures r <==> Has(reg, EndOfInput)
  {
    reg & Mask(EndOfInput) != NoError
  }

  /** `lexer::error()`: the stream's register with end of input masked out. */
  function LexerError(reg: Register): (r: Register)
    ensures forall f: Flag :: Has(r, f) <==> Has(reg, f) && f != EndOfInput
  {
    reg & !Mask(EndOfInput)
  }

  /** `blocked` holds exactly when `failed` does or a mismatch was seen. */
  lemma BlockedIsFailedOrMismatch(reg: Register)
    ensures (reg & Blocked != NoError) <==> !IsGood(reg) || Has(reg, Mismatch)
  {
  }

  /** Raising is idempotent and order-independent: the register is a set of conditions. */
  lemma RaiseAlgebra(reg: Register, e1: Register, e2: Register)
    ensures Raise(Raise(reg, e1), e1) == Raise(reg, e1)
    ensures Raise(Raise(reg, e1), e2) == Raise(Raise(reg, e2), e1)
  {
    FlagsDetermine(Raise(Raise(reg, e1), e1), Raise(reg, e1));
    FlagsDetermine(Raise(Raise(reg, e1), e2), Raise(Raise(reg, e2), e1));
  }

  /** Includes is a preorder, so "errors only grow" composes along a run. */
  lemma IncludesTransitive(a: Register, b: Register, c: Register)
    requires Includes(a, b) && Includes(b, c)
    ensures Includes(a, c)
  {
  }

  /** A condition survives into every register that includes it. */
  lemma IncludesKeeps(big: Register, small: Register, f: Flag)
    requires Includes(big, small) && Has(small, f)
    ensures Has(big, f)
  {
    assert big & small & Mask(f) == small & Mask(f);
  }

  /** Inclusion of registers is inclusion of conditions. */
  lemma IncludesFlags(big: Register, small: Register)
    ensures Includes(big, small) <==> forall f: Flag :: Has(small, f) ==> Has(big, f)
  {
    if forall f: Flag :: Has(small, f) ==> Has(big, f) {
      FlagsDetermine(big & small, small);
    }
  }
}
