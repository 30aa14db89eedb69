/**
 * Character classification (`ctype`): a bit mask of grammar roles, or one of
 * the sentinels `unknown`, `eof` and `err`.
 *
 * In the source `ctype` is an `int` enumeration: role combinations are
 * positive, `unknown` is zero, `eof` and `err` are negative.  The datatype
 * below keeps the sentinels apart from the role bits by construction, and
 * `Rank` gives back the order of the integer codes so that `isvalid`
 * (`ct > unknown`) can be stated as the source writes it.
 */
module CharClass {

  type Bits = bv16

  // role bits
  const Whitespace: Bits := 0x0001
  const Delim: Bits := 0x0002
  const String: Bits := 0x0004
  const Special: Bits := 0x0008
  const Value: Bits := 0x0010
  const Null: Bits := 0x0020
  const Boolean: Bits := 0x0040
  const Digit: Bits := 0x0080
  const Sign: Bits := 0x0100
  const Decimal: Bits := 0x0200
  const Exponent: Bits := 0x0400
  const Array: Bits := 0x0800
  const Object: Bits := 0x1000
  const Hex: Bits := 0x2000
  const HexUpper: Bits := 0x4000

  // common masks
  const Literal: Bits := Null | Boolean
  const Number: Bits := Digit | Sign | Decimal | Exponent
  const Numeric: Bits := Number | Delim
  const Unhex: Bits := Digit | Hex | HexUpper
  const Unescape: Bits := Special
  const ArrayNull: Bits := Array | Null
  const ObjectNull: Bits := Object | Null
  const StringNull: Bits := String | Null

  /** A classification.  `Roles(0)` is never built: a mask that clears every
      bit yields `Unknown`, as the integer 0 does in the source. */
  datatype CType = Unknown | Eof | Err | Roles(bits: Bits)

  predicate WellFormed(ct: CType) {
    ct.Roles? ==> ct.bits != 0
  }

  /** The sign of the enumeration's integer value: role combinations are
      positive, `unknown` is zero, `eof` (-1) sits above `err` (-2).  This is
      all the source compares (`ct > unknown`, `ct >= eof`). */
  function Rank(ct: CType): int {
    match ct
    case Unknown => 0
    case Eof => -1
    case Err => -2
    case Roles(b) => if b == 0 then 0 else 1
  }

  /** Build a classification from a bit set. */
  function Classify(b: Bits): (r: CType)
    ensures WellFormed(r)
    ensures r.Unknown? <==> b == 0
    ensures !r.Eof? && !r.Err?
  {
    if b == 0 then Unknown else Roles(b)
  }

  /** `isvalid`: the code is above `unknown`. */
  predicate IsValid(ct: CType) {
    Rank(ct) > Rank(Unknown)
  }

  /** A valid classification is exactly a non-empty set of role bits. */
  lemma ValidIsRoles(ct: CType)
    ensures IsValid(ct) <==> ct.Roles? && ct.bits != 0
  {
  }

  /** `andmask`: sentinels pass through, role bits are intersected with the mask. */
  function AndMask(ct: CType, mask: Bits): (r: CType)
    requires WellFormed(ct)
    ensures WellFormed(r)
    ensures r.Eof? <==> ct.Eof?
    ensures r.Err? <==> ct.Err?
    ensures !ct.Roles? ==> r == ct
    ensures r.Roles? ==> ct.Roles? && r.bits == ct.bits & mask
  {
    if Rank(ct) <= Rank(Unknown) then ct else Classify(ct.bits & mask)
  }

  /** `hasbits`: a valid classification sharing a bit with the mask. */
  predicate HasBits(ct: CType, mask: Bits) {
    if Rank(ct) > Rank(Unknown) then ct.bits & mask != 0 else false
  }

  /** `hasbits` holds exactly when `andmask` leaves a valid classification. */
  lemma HasBitsIsValidMask(ct: CType, mask: Bits)
    requires WellFormed(ct)
    ensures HasBits(ct, mask) <==> IsValid(AndMask(ct, mask))
  {
  }

  /** The rows of `lexer::char_typify`: each character gets the bits of every
      row whose string contains it. */
  function Typify(c: char): Bits {
    (if c == '\t' || c == '\n' || c == '\r' || c == ' ' then Whitespace else 0)
      | (if c == 'b' || c == 't' || c == 'f' || c == 'n' || c == 'r' || c == 'u' || c == '\"' || c == '\\' then Special else 0)
      | (if c == 't' || c == 'f' || c == 'n' || c == '-' || c == '0' || c == '1' || c == '2' || c == '3' || c == '4' || c == '5' || c == '6' || c == '7' || c == '8' || c == '9' || c == '{' || c == '[' || c == '\"' then Value else 0)
      | (if c == 't' || c == 'r' || c == 'u' || c == 'e' then Boolean else 0)
      | (if c == 'f' || c == 'a' || c == 'l' || c == 's' || c == 'e' then Boolean else 0)
      | (if c == 'n' || c == 'u' || c == 'l' then Null else 0)
      | (if c == '0' || c == '1' || c == '2' || c == '3' || c == '4' || c == '5' || c == '6' || c == '7' || c == '8' || c == '9' then Digit else 0)
      | (if c == '-' || c == '+' then Sign else 0)
      | (if c == '.' then Decimal else 0)
      | (if c == 'e' || c == 'E' then Exponent else 0)
      | (if c == '}' || c == ']' || c == ',' || c == '\t' || c == '\n' || c == '\r' || c == ' ' then Delim else 0)
      | (if c == '[' || c == ',' || c == ']' then Array else 0)
      | (if c == '{' || c == ',' || c == '}' then Object else 0)
      | (if c == 'a' || c == 'b' || c == 'c' || c == 'd' || c == 'e' || c == 'f' then Hex else 0)
      | (if c == 'A' || c == 'B' || c == 'C' || c == 'D' || c == 'E' || c == 'F' then HexUpper else 0)
  }

  /** The `string` role: any character above space.  `char_t` is plain
      `char`; the model takes it to be a signed 8-bit type, so the
      characters above space end at 0x7F. */
  predicate IsStringChar(c: char) {
    ' ' < c <= '\U{7F}'
  }

  /** The `string` bit of a character. */
  function StringBit(c: char): Bits {
    if IsStringChar(c) then String else 0
  }

  /** `chartype`: one entry per character, holding the roles `char_typify`
      assigns plus the `string` role. */
  function CharType(c: char): (r: CType)
    ensures WellFormed(r) && !r.Eof? && !r.Err?
    ensures HasBits(r, String) <==> IsStringChar(c)
    ensures IsValid(r) <==> IsStringChar(c) || c == '\t' || c == '\n' || c == '\r' || c == ' '
  {
    match c
    case '\t' => Roles(Whitespace | Delim)
    case '\n' => Roles(Whitespace | Delim)
    case '\r' => Roles(Whitespace | Delim)
    case ' ' => Roles(Whitespace | Delim)
    case '\"' => Roles(String | Special | Value)
    case '+' => Roles(String | Sign)
    case ',' => Roles(String | Delim | Array | Object)
    case '-' => Roles(String | Value | Sign)
    case '.' => Roles(String | Decimal)
    case '0' => Roles(String | Value | Digit)
    case '1' => Roles(String | Value | Digit)
    case '2' => Roles(String | Value | Digit)
    case '3' => Roles(String | Value | Digit)
    case '4' => Roles(String | Value | Digit)
    case '5' => Roles(String | Value | Digit)
    case '6' => Roles(String | Value | Digit)
    case '7' => Roles(String | Value | Digit)
    case '8' => Roles(String | Value | Digit)
    case '9' => Roles(String | Value | Digit)
    case 'A' => Roles(String | HexUpper)
    case 'B' => Roles(String | HexUpper)
    case 'C' => Roles(String | HexUpper)
    case 'D' => Roles(String | HexUpper)
    case 'E' => Roles(String | Exponent | HexUpper)
    case 'F' => Roles(String | HexUpper)
    case '[' => Roles(String | Value | Array)
    case '\\' => Roles(String | Special)
    case ']' => Roles(String | Delim | Array)
    case 'a' => Roles(String | Boolean | Hex)
    case 'b' => Roles(String | Special | Hex)
    case 'c' => Roles(String | Hex)
    case 'd' => Roles(String | Hex)
    case 'e' => Roles(String | Boolean | Exponent | Hex)
    case 'f' => Roles(String | Special | Value | Boolean | Hex)
    case 'l' => Roles(String | Null | Boolean)
    case 'n' => Roles(String | Special | Value | Null)
    case 'r' => Roles(String | Special | Boolean)
    case 's' => Roles(String | Boolean)
    case 't' => Roles(String | Special | Value | Boolean)
    case 'u' => Roles(String | Special | Null | Boolean)
    case '{' => Roles(String | Value | Object)
    case '}' => Roles(String | Delim | Object)
    case _ => if IsStringChar(c) then Roles(String) else Unknown
  }

  /** The table holds exactly what the rows assign, plus the `string` role. */
  lemma CharTypeIsTypified(c: char)
    ensures CharType(c) == Classify(Typify(c) | StringBit(c))
  {
    if c < '0' {
      TypifiedBelowDigits(c);
    } else if c <= '9' {
      TypifiedDigits(c);
    } else if c < 'a' {
      TypifiedUpper(c);
    } else {
      TypifiedLower(c);
    }
  }

  lemma TypifiedBelowDigits(c: char)
    requires c < '0'
    ensures CharType(c) == Classify(Typify(c) | StringBit(c))
  {
  }

  lemma TypifiedDigits(c: char)
    requires '0' <= c <= '9'
    ensures CharType(c) == Classify(Typify(c) | StringBit(c))
  {
  }

  lemma TypifiedUpper(c: char)
    requires '9' < c < 'a'
    ensures CharType(c) == Classify(Typify(c) | StringBit(c))
  {
  }

  lemma TypifiedLower(c: char)
    requires 'a' <= c
    ensures CharType(c) == Classify(Typify(c) | StringBit(c))
  {
  }

  /** `isws`: the whitespace role. */
  function IsWs(c: char): (r: bool)
    ensures r <==> c == '\t' || c == '\n' || c == '\r' || c == ' '
  {
    HasBits(CharType(c), Whitespace)
  }

  predicate IsDigitChar(c: char) {
    '0' <= c <= '9'
  }

  /** The delimiters a number may end on: closing brackets, comma, whitespace. */
  predicate IsDelimChar(c: char) {
    c == '}' || c == ']' || c == ',' || c == '\t' || c == '\n' || c == '\r' || c == ' '
  }

  /** How the number scanner sees a character: its role under the `numeric` mask,
      written out from the JSON number grammar rather than from the table. */
  function NumericRole(c: char): CType {
    if IsDigitChar(c) then Roles(Digit)
    else if c == '-' || c == '+' then Roles(Sign)
    else if c == '.' then Roles(Decimal)
    else if c == 'e' || c == 'E' then Roles(Exponent)
    else if IsDelimChar(c) then Roles(Delim)
    else Unknown
  }

  /** The table agrees with the number grammar under the `numeric` mask. */
  lemma NumericView(c: char)
    ensures AndMask(CharType(c), Numeric) == NumericRole(c)
  {
  }

  /** Digits, signs, decimal points and exponents are exactly the `number` role. */
  lemma NumberView(c: char)
    ensures HasBits(CharType(c), Number) <==> IsDigitChar(c) || c in "+-.eE"
  {
  }

  /** The structural characters of arrays and objects (section 2 of RFC 8259). */
  lemma StructuralView(c: char)
    ensures HasBits(CharType(c), Array) <==> c == '[' || c == ',' || c == ']'
    ensures HasBits(CharType(c), Object) <==> c == '{' || c == ',' || c == '}'
  {
  }
}
