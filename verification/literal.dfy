/**
 * JSON literals of `struct literal`: the structural characters of section 2
 * of RFC 8259 and the escape tables used when strings are written.
 */
module Literals {
  import opened CharClass
  import opened Options

  // structural characters (section 2 of RFC 8259)
  const BeginArray: char := '['
  const BeginObject: char := '{'
  const EndArray: char := ']'
  const EndObject: char := '}'
  const NameSeparator: char := ':'
  const ValueSeparator: char := ','
  const Minus: char := '-'
  const Plus: char := '+'
  const Digit0: char := '0'

  /** Texts separated by the value separator, as arrays and objects list
      their values and members (sections 4 and 5 of RFC 8259). */
  function Join(parts: seq<string>): string {
    if parts == [] then [] else JoinFrom(parts, 0)
  }

  /** A JSON array of already written values (section 5 of RFC 8259). */
  function ArrayText(items: seq<string>): string {
    [BeginArray] + Join(items) + [EndArray]
  }

  /** The parts from `i` on, separated by the value separator. */
  function JoinFrom(parts: seq<string>, i: nat): string
    requires i < |parts|
    decreases |parts| - i
  {
    parts[i] + (if i + 1 < |parts| then [ValueSeparator] + JoinFrom(parts, i + 1) else [])
  }

  /** Control characters are those below the space character. */
  predicate IsControl(c: char) {
    c < ' '
  }

  /** Characters a JSON string must not contain unescaped (section 7 of RFC 8259):
      quotation mark, reverse solidus and the controls U+0000 through U+001F. */
  predicate MustEscape(c: char) {
    c == '"' || c == '\\' || c <= '\U{1F}'
  }

  /** The two-character escapes of section 7 of RFC 8259: the character that
      `\x` stands for, if `x` is a short escape letter. */
  function ShortEscape(x: char): Option<char> {
    match x
    case '"' => Some('"')
    case '\\' => Some('\\')
    case '/' => Some('/')
    case 'b' => Some('\U{08}')
    case 'f' => Some('\U{0C}')
    case 'n' => Some('\U{0A}')
    case 'r' => Some('\U{0D}')
    case 't' => Some('\U{09}')
    case _ => None
  }

  /** `literal::is_escaped`: the non-control characters that need a backslash. */
  function IsEscaped(c: char): (r: bool)
    ensures r <==> MustEscape(c) && !IsControl(c)
    ensures r ==> ShortEscape(c) == Some(c)
  {
    c == '"' || c == '\\'
  }

  /** `literal::replace_common`: the escape letter of the five common controls,
      any other character unchanged. */
  function ReplaceCommon(c: char): (r: char)
    ensures r != c <==> c in "\U{08}\U{0C}\U{0A}\U{0D}\U{09}"
    ensures r != c ==> IsControl(c) && ShortEscape(r) == Some(c)
  {
    if c == '\U{08}' then 'b'
    else if c == '\U{0C}' then 'f'
    else if c == '\U{0A}' then 'n'
    else if c == '\U{0D}' then 'r'
    else if c == '\U{09}' then 't'
    else c
  }

  /** The two tables together with `is_control` cover exactly the characters
      RFC 8259 requires to be escaped. */
  lemma EscapeTablesCoverRfc(c: char)
    ensures MustEscape(c) <==> IsEscaped(c) || IsControl(c)
  {
  }

  /** Writing a backslash followed by the table's letter decodes back to the
      original character, for every character the tables handle. */
  lemma EscapeRoundTrip(c: char)
    requires IsEscaped(c) || ReplaceCommon(c) != c
    ensures ShortEscape(if IsEscaped(c) then c else ReplaceCommon(c)) == Some(c)
  {
  }

  /** The `special` role of the character table marks the escape letters the
      lexer accepts after a backslash: every short escape letter of RFC 8259
      except the solidus, plus `u` for four-digit escapes. */
  lemma SpecialRoleIsEscapeLetters(x: char)
    ensures HasBits(CharType(x), Special) <==> (ShortEscape(x).Some? && x != '/') || x == 'u'
  {
  }
}
