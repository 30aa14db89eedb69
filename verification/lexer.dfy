/**
 * The lexer's state and the scanning primitives whose bodies are part of the
 * model: one-character `get` with a single pushback slot, `back`, and the two
 * `skip(mask)` forms.
 *
 * The input stream is a character sequence read from `pos` onwards.  When it
 * runs out the stream reports a clean end of input, or an I/O fault when
 * `broken` is set.  The pushback slot `hold` uses the NUL character for
 * "empty", as the source does (so pushing back NUL is the same as `restart`).
 *
 * The lexer operations whose bodies live elsewhere (`value`, `member`,
 * `skip(bool)`) are the fields of `Scanner`: callers receive them as
 * parameters and rely only on `WellBehaved`.
 */
module Lexing {
  import opened Errors
  import opened CharClass
  import opened Options

  /** `iostate::eos_c` and `iostate::err_c` (-1 and -2) as 8-bit characters. */
  const EosChar: char := '\U{FF}'
  const ErrChar: char := '\U{FE}'

  /** The value of an empty pushback slot. */
  const NoChar: char := '\0'

  datatype Lexer = Lexer(input: seq<char>, pos: nat, hold: char, err: Register, broken: bool)

  /** Characters still to be delivered: the pushed-back one and the unread input. */
  function Remaining(lx: Lexer): nat {
    (if lx.pos < |lx.input| then |lx.input| - lx.pos else 0)
    + (if lx.hold != NoChar then 1 else 0)
  }

  /** `b` is a later state of the same stream as `a`: the stream only moves
      forward and the error register only gains conditions. */
  predicate Follows(a: Lexer, b: Lexer) {
    && b.input == a.input
    && b.broken == a.broken
    && Remaining(b) <= Remaining(a)
    && Includes(b.err, a.err)
  }

  lemma FollowsTransitive(a: Lexer, b: Lexer, c: Lexer)
    requires Follows(a, b) && Follows(b, c)
    ensures Follows(a, c)
  {
    IncludesTransitive(c.err, b.err, a.err);
  }

  /** `lexer::error(e)`: record a condition in the stream's register. */
  function Raised(lx: Lexer, f: Flag): (r: Lexer)
    ensures Follows(lx, r) && Remaining(r) == Remaining(lx)
    ensures Has(r.err, f)
    ensures r.input == lx.input && r.pos == lx.pos && r.hold == lx.hold && r.broken == lx.broken
  {
    lx.(err := RaiseFlag(lx.err, f))
  }

  /** What one read delivers: the classification, the character, the new state. */
  datatype Got = Got(ct: CType, ch: char, lx: Lexer)

  /** `lexer::get(dst)`: the pushed-back character if there is one, otherwise
      the next input character; at the end of the input the `eof` (or, on a
      broken stream, `err`) sentinel, with the matching condition recorded. */
  function Get(lx: Lexer): (r: Got)
    ensures Follows(lx, r.lx) && r.lx.hold == NoChar && WellFormed(r.ct)
    ensures Remaining(lx) > 0 ==>
      Remaining(r.lx) == Remaining(lx) - 1 && r.ct == CharType(r.ch) && r.lx.err == lx.err
    ensures Remaining(lx) == 0 ==>
      && r.lx == lx.(err := r.lx.err)
      && (if lx.broken then r.ct == Err && Has(r.lx.err, IoError)
          else r.ct == Eof && Has(r.lx.err, EndOfInput))
  {
    if lx.hold != NoChar then Got(CharType(lx.hold), lx.hold, lx.(hold := NoChar))
    else if lx.pos < |lx.input| then
      Got(CharType(lx.input[lx.pos]), lx.input[lx.pos], lx.(pos := lx.pos + 1))
    else if lx.broken then Got(Err, ErrChar, Raised(lx, IoError))
    else Got(Eof, EosChar, Raised(lx, EndOfInput))
  }

  /** A valid classification is only ever delivered together with a character. */
  lemma GetValidConsumes(lx: Lexer)
    ensures IsValid(Get(lx).ct) ==> Remaining(Get(lx).lx) < Remaining(lx)
  {
  }

  /** `lexer::get(dst, mask)`: a read seen through a mask. */
  function GetMasked(lx: Lexer, mask: Bits): (r: Got)
    ensures r.ch == Get(lx).ch && r.lx == Get(lx).lx
    ensures r.ct == AndMask(Get(lx).ct, mask)
  {
    var g := Get(lx);
    Got(AndMask(g.ct, mask), g.ch, g.lx)
  }

  /** `lexer::back(chr)`: fill the pushback slot. */
  function Back(lx: Lexer, c: char): (r: Lexer)
    ensures r.input == lx.input && r.pos == lx.pos && r.err == lx.err && r.broken == lx.broken
    ensures r.hold == c
  {
    lx.(hold := c)
  }

  /** Pushing back a character after reading it restores the stream: the
      next read delivers the same character and classification. */
  lemma BackThenGet(lx: Lexer, c: char)
    requires c != NoChar
    ensures Get(Back(lx, c)) == Got(CharType(c), c, lx.(hold := NoChar))
  {
  }

  /** Reading a character and pushing it back leaves the amount of pending
      input unchanged, so the pair never moves the stream backwards. */
  lemma GetThenBack(lx: Lexer)
    requires Remaining(lx) > 0 && Get(lx).ch != NoChar
    ensures Remaining(Back(Get(lx).lx, Get(lx).ch)) == Remaining(lx)
    ensures Follows(lx, Back(Get(lx).lx, Get(lx).ch))
  {
  }

  /** `lexer::skip(dst, mask)`: read while the classification has a bit of
      `mask`; deliver the first read that does not. */
  function SkipWhile(lx: Lexer, mask: Bits): (r: Got)
    ensures Follows(lx, r.lx) && r.lx.hold == NoChar && WellFormed(r.ct)
    ensures !HasBits(r.ct, mask)
    ensures IsValid(r.ct) ==> Remaining(r.lx) < Remaining(lx) && r.ct == CharType(r.ch)
    ensures r.ct.Err? ==> lx.broken && Has(r.lx.err, IoError)
    ensures r.ct.Eof? ==> !lx.broken && Has(r.lx.err, EndOfInput)
    decreases Remaining(lx)
  {
    var g := Get(lx);
    if HasBits(g.ct, mask) then
      var r := SkipWhile(g.lx, mask);
      FollowsTransitive(lx, g.lx, r.lx);
      r
    else g
  }

  /** The characters still to be delivered, in order: the pushed-back one,
      then the unread input. */
  function Pending(lx: Lexer): seq<char> {
    (if lx.hold != NoChar then [lx.hold] else [])
      + (if lx.pos <= |lx.input| then lx.input[lx.pos..] else [])
  }

  /** A read delivers the first pending character and leaves the rest. */
  lemma GetPending(lx: Lexer)
    requires Pending(lx) != []
    ensures Get(lx).ch == Pending(lx)[0] && Get(lx).ct == CharType(Pending(lx)[0])
    ensures Pending(Get(lx).lx) == Pending(lx)[1..]
    ensures Get(lx).lx.err == lx.err && Get(lx).lx.hold == NoChar
  {
    if lx.hold == NoChar {
      assert lx.input[lx.pos..][1..] == lx.input[lx.pos + 1..];
    }
  }

  /** A character pushed back into an empty slot is pending before the rest. */
  lemma BackPending(lx: Lexer, c: char)
    requires lx.hold == NoChar && c != NoChar
    ensures Pending(Back(lx, c)) == [c] + Pending(lx)
  {
  }

  /** With nothing pending a read delivers a sentinel, never a character class. */
  lemma GetNothingPending(lx: Lexer)
    requires Pending(lx) == []
    ensures Get(lx).ct == (if lx.broken then Err else Eof)
  {
  }

  /** One turn of `skip(dst, mask)`: pass over the character read, or stop at it. */
  lemma SkipWhileOnce(lx: Lexer, mask: Bits)
    ensures SkipWhile(lx, mask) ==
      if HasBits(Get(lx).ct, mask) then SkipWhile(Get(lx).lx, mask) else Get(lx)
  {
  }

  /** Skipping stops at a pending character without a bit of `mask`. */
  lemma SkipPendingStop(lx: Lexer, mask: Bits, c: char, rest: seq<char>)
    requires Pending(lx) == [c] + rest && !HasBits(CharType(c), mask)
    ensures SkipWhile(lx, mask) == Get(lx)
    ensures Get(lx).ct == CharType(c) && Get(lx).ch == c
    ensures Pending(Get(lx).lx) == rest && Get(lx).lx.hold == NoChar
    ensures Get(lx).lx.input == lx.input && Get(lx).lx.broken == lx.broken && Get(lx).lx.err == lx.err
  {
    GetPending(lx);
    SkipWhileOnce(lx, mask);
    assert Pending(lx)[1..] == rest;
  }

  /** Skipping passes over a pending character with a bit of `mask`. */
  lemma SkipPendingPass(lx: Lexer, mask: Bits, x: char, tail: seq<char>)
    requires Pending(lx) == [x] + tail && HasBits(CharType(x), mask)
    ensures SkipWhile(lx, mask) == SkipWhile(Get(lx).lx, mask)
    ensures Pending(Get(lx).lx) == tail
    ensures Get(lx).lx.input == lx.input && Get(lx).lx.broken == lx.broken && Get(lx).lx.err == lx.err
  {
    GetPending(lx);
    SkipWhileOnce(lx, mask);
    assert Pending(lx)[1..] == tail;
  }

  /** Skipping a run of pending characters with a bit of `mask` delivers the
      first one without, and leaves the characters after it pending. */
  lemma {:induction false} SkipPending(lx: Lexer, mask: Bits, run: seq<char>, c: char, rest: seq<char>)
    requires Pending(lx) == run + [c] + rest
    requires forall k :: 0 <= k < |run| ==> HasBits(CharType(run[k]), mask)
    requires !HasBits(CharType(c), mask)
    ensures SkipWhile(lx, mask).ct == CharType(c) && SkipWhile(lx, mask).ch == c
    ensures Pending(SkipWhile(lx, mask).lx) == rest && SkipWhile(lx, mask).lx.hold == NoChar
    ensures SkipWhile(lx, mask).lx.input == lx.input && SkipWhile(lx, mask).lx.broken == lx.broken
    ensures SkipWhile(lx, mask).lx.err == lx.err
    decreases |run|
  {
    if run == [] {
      assert Pending(lx) == [c] + rest;
      SkipPendingStop(lx, mask, c, rest);
    } else {
      var tail := run[1..] + [c] + rest;
      assert Pending(lx) == [run[0]] + tail;
      SkipPendingPass(lx, mask, run[0], tail);
      SkipPending(Get(lx).lx, mask, run[1..], c, rest);
    }
  }

  /** Skipping a pending run of characters that all have a bit of `mask`
      runs into the end of the stream: `eof`, or `err` on a broken stream. */
  lemma {:induction false} SkipPendingAll(lx: Lexer, mask: Bits, run: seq<char>)
    requires Pending(lx) == run
    requires forall k :: 0 <= k < |run| ==> HasBits(CharType(run[k]), mask)
    ensures SkipWhile(lx, mask).ct == (if lx.broken then Err else Eof)
    ensures Pending(SkipWhile(lx, mask).lx) == []
    decreases |run|
  {
    if run == [] {
      GetNothingPending(lx);
      SkipWhileOnce(lx, mask);
    } else {
      assert Pending(lx) == [run[0]] + run[1..];
      SkipPendingPass(lx, mask, run[0], run[1..]);
      SkipPendingAll(Get(lx).lx, mask, run[1..]);
    }
  }

  /** `lexer::skip(mask)`: skip a run and push back the character that ended
      it.  Only an I/O fault makes it fail; an `unknown` character is
      consumed, not pushed back. */
  function SkipRun(lx: Lexer, mask: Bits): (r: Answer<bool>)
    ensures Follows(lx, r.lx)
    ensures !r.v <==> SkipWhile(lx, mask).ct.Err?
    ensures !r.v ==> lx.broken && Has(r.lx.err, IoError)
    ensures IsValid(SkipWhile(lx, mask).ct) ==> Get(r.lx).ch == SkipWhile(lx, mask).ch
  {
    var g := SkipWhile(lx, mask);
    if Rank(g.ct) > Rank(Unknown) then
      GetThenBackAfterSkip(lx, mask);
      Answer(true, Back(g.lx, g.ch))
    else Answer(Rank(g.ct) >= Rank(Eof), g.lx)
  }

  /** The character that ended a skipped run can always be pushed back. */
  lemma GetThenBackAfterSkip(lx: Lexer, mask: Bits)
    requires IsValid(SkipWhile(lx, mask).ct)
    ensures Follows(lx, Back(SkipWhile(lx, mask).lx, SkipWhile(lx, mask).ch))
  {
  }

  /** A lexer answer: a value and the state after producing it. */
  datatype Answer<T> = Answer(v: T, lx: Lexer)

  /** The lexer operations whose bodies are not part of this model:
      `value(expected)` classifies the next significant character,
      `member(name)` decodes a quoted member name and its colon,
      `skip(list)` discards one well-formed value (or the rest of a list). */
  datatype Scanner = Scanner(
    value: (Lexer, Bits) -> Answer<CType>,
    member: Lexer -> Answer<Option<string>>,
    skipValue: (Lexer, bool) -> Answer<bool>)

  /** What this model relies on from those operations: they read the same
      stream forward only, keep every recorded condition, and return a
      classification that keeps sentinels and role bits apart. */
  ghost predicate WellBehaved(sc: Scanner) {
    && (forall l, m :: Follows(l, sc.value(l, m).lx) && WellFormed(sc.value(l, m).v))
    && (forall l :: Follows(l, sc.member(l).lx))
    && (forall l, b :: Follows(l, sc.skipValue(l, b).lx))
  }
}
