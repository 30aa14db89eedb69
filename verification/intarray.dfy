/**
 * An `array` binding whose items are integers read with `reader<T>::read`:
 * what the integer writer puts between the brackets, the array traversal
 * reads back, item by item.
 *
 * `lexer::value` is not part of this model; what the integer reader needs
 * from it is stated as `PeeksNumbers` and taken as a hypothesis.
 */
module IntArrays {
  import opened CharClass
  import opened Lexing
  import opened Literals
  import opened Decimal
  import opened Numbers
  import opened ScanFacts
  import opened Collections
  import opened Bindings

  /** What `reader<T>::read` relies on from `lexer::value(numeric)` at `l`:
      with a digit or a minus sign next, the classification is valid and
      that character is still pending afterwards. */
  ghost predicate PeeksNumberAt(sc: Scanner, l: Lexer) {
    Pending(l) != [] && (IsDigit(Pending(l)[0]) || Pending(l)[0] == Minus) ==>
      IsValid(sc.value(l, Numeric).v) && Pending(sc.value(l, Numeric).lx) == Pending(l)
  }

  ghost predicate PeeksNumbers(sc: Scanner) {
    forall l {:trigger PeeksNumberAt(sc, l)} :: PeeksNumberAt(sc, l)
  }

  /** An item of the binding: an integer of type `t` read into the item's
      own storage. */
  function IntItem(t: IntType, policy: Policy, sc: Scanner, l: Lexer): (r: Answer<bool>)
    requires WellBehaved(sc)
    ensures Follows(l, r.lx)
  {
    var n := ReadInt(t, policy, sc, l);
    Answer(n.ok, n.lx)
  }

  /** `count` integer items. */
  function IntItems(t: IntType, policy: Policy, sc: Scanner, count: nat): (items: seq<Lexer -> Answer<bool>>)
    requires WellBehaved(sc)
    ensures |items| == count && ValuesAdvance(items)
  {
    seq(count, k => (l: Lexer) => IntItem(t, policy, sc, l))
  }

  /** The texts the integer writer puts for `vals`. */
  function Spellings(vals: seq<int>): (texts: seq<string>)
    ensures |texts| == |vals|
  {
    seq(|vals|, k requires 0 <= k < |vals| => Spelling(vals[k]))
  }

  predicate AllInRange(t: IntType, vals: seq<int>) {
    forall k :: 0 <= k < |vals| ==> InRange(t, vals[k])
  }

  /** One integer item reads the spelling of a value of its type back to
      that value, and leaves the separator or closing bracket after it
      pending. */
  lemma IntItemReadsSpelling(t: IntType, policy: Policy, sc: Scanner, l: Lexer, n: int)
    requires WellBehaved(sc) && PeeksNumbers(sc) && InRange(t, n)
    requires ItemThenDelim(l, Spelling(n))
    ensures ReadInt(t, policy, sc, l).ok && ReadInt(t, policy, sc, l).val == n
    ensures Pending(ReadInt(t, policy, sc, l).lx) == Pending(l)[|Spelling(n)|..]
  {
    var sp := Spelling(n);
    var p := Pending(l);
    SpellingStarts(n);
    assert p[0] == sp[0];
    assert PeeksNumberAt(sc, l);
    var v := sc.value(l, Numeric).lx;
    assert Pending(v) == p;
    assert RunThenEnd(v, sp);
    ReadIntSpelling(t, policy, sc, l, n);
  }

  /** The canonical spelling starts with a minus sign or a digit. */
  lemma SpellingStarts(n: int)
    ensures |Spelling(n)| >= 1
    ensures IsDigit(Spelling(n)[0]) || Spelling(n)[0] == Minus
  {
    var ds := DecimalDigits(if n < 0 then -n else n);
    if n >= 0 {
      assert Spelling(n) == ds;
    }
  }

  /** The items of the binding read the writer's spellings of `vals`, as
      the array traversal needs of its item reader. */
  lemma IntItemsReadSpellings(t: IntType, policy: Policy, sc: Scanner, nullIsError: bool, vals: seq<int>)
    requires WellBehaved(sc) && PeeksNumbers(sc) && AllInRange(t, vals)
    ensures ReadsItems(ArrayStructure(IntItems(t, policy, sc, |vals|), sc, nullIsError), Spellings(vals))
  {
    var items := IntItems(t, policy, sc, |vals|);
    var s := ArrayStructure(items, sc, nullIsError);
    forall d, l, i: nat ensures ReadsItem(s, Spellings(vals), d, l, i) {
      if i < |vals| && ItemThenDelim(l, Spellings(vals)[i]) {
        IntItemReadsSpelling(t, policy, sc, l, vals[i]);
      }
    }
  }

  /** Reading what the writer puts for a non-empty array of integers of
      type `t`: the traversal succeeds and hands every item to its reader. */
  lemma ReadsIntArray(t: IntType, policy: Policy, sc: Scanner, nullIsError: bool, vals: seq<int>, lx: Lexer, rest: seq<char>)
    requires WellBehaved(sc) && PeeksNumbers(sc) && AllInRange(t, vals) && |vals| >= 1
    requires IsValid(sc.value(lx, ArrayNull).v) && sc.value(lx, ArrayNull).v != Roles(Null)
    requires Pending(sc.value(lx, ArrayNull).lx) == ArrayText(Spellings(vals)) + rest
    ensures ReadArray(IntItems(t, policy, sc, |vals|), sc, nullIsError, lx).ok
    ensures ReadArray(IntItems(t, policy, sc, |vals|), sc, nullIsError, lx).count == |vals|
  {
    var items := IntItems(t, policy, sc, |vals|);
    ArrayStructureForward(items, sc, nullIsError);
    IntItemsReadSpellings(t, policy, sc, nullIsError, vals);
    SpellingStarts(vals[0]);
    assert Element(Spellings(vals)[0]);
    ReadsArrayText(sc, ArrayStructure(items, sc, nullIsError), Spellings(vals), Void, lx, rest);
  }
}
