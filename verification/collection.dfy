/**
 * `collection<I>::read`: the one traversal behind arrays, vectors, objects
 * and classes, parameterised by a position strategy (`iterator` for arrays,
 * `indexer` for objects) and by the structure whose items it reads.
 *
 * The structure's item reader and its null rule are parameters: callers
 * pass the bindings of `Bindings`, and the traversal relies only on the
 * reader moving the stream forward.
 */
module Collections {
  import opened Errors
  import opened CharClass
  import opened Lexing
  import opened Literals
  import opened Options

  /** The position strategy: `iterator` (arrays) or `indexer` (objects). */
  datatype Strategy = Sequential | Keyed

  /** `I::start`: what the opening token may be. */
  function Start(st: Strategy): Bits {
    if st == Sequential then ArrayNull else ObjectNull
  }

  /** `I::middle`: the structural role of the characters between items. */
  function Middle(st: Strategy): Bits {
    if st == Sequential then Array else Object
  }

  /** `I::finish`: the closing character. */
  function Finish(st: Strategy): char {
    if st == Sequential then EndArray else EndObject
  }

  /** The opening character, the one structural character of the role that
      is neither a separator nor the closing one. */
  function Opening(st: Strategy): char {
    if st == Sequential then BeginArray else BeginObject
  }

  /** `I::skiplist`: what `skip(bool)` is asked to discard after a failed item. */
  function SkipList(st: Strategy): bool {
    st == Sequential
  }

  /** The characters of the middle role are the opening, the separator and
      the closing character. */
  lemma MiddleChars(st: Strategy, c: char)
    ensures HasBits(CharType(c), Middle(st)) <==> c == Opening(st) || c == ValueSeparator || c == Finish(st)
  {
    StructuralView(c);
  }

  /** The position handed to the item reader: an index or a member name. */
  datatype Key = Index(i: nat) | Name(name: string)

  /** What an item reader returns: success, the destination, the stream. */
  datatype Item<D> = Item(ok: bool, dst: D, lx: Lexer)

  /** The structural object `S`: `S::read(dst, in, key)` and `S::null(dst)` (`onNull`). */
  datatype Structure<!D> = Structure(read: (D, Lexer, Key) -> Item<D>, onNull: D -> bool)

  /** One item read moves the stream forward and keeps its conditions. */
  ghost predicate ReadFollows<D(!new)>(s: Structure<D>, d: D, l: Lexer, k: Key) {
    Follows(l, s.read(d, l, k).lx)
  }

  /** The item reader only moves the stream forward and keeps its conditions. */
  ghost predicate Forward<D(!new)>(s: Structure<D>) {
    forall d, l, k {:trigger ReadFollows(s, d, l, k)} :: ReadFollows(s, d, l, k)
  }

  /** The outcome of a traversal; `count` is the number of items dispatched
      to the structure's reader. */
  datatype Traversal<D> = Traversal(ok: bool, dst: D, lx: Lexer, count: nat)

  /** `I::prolog` and the key `id++` yields: the running index for arrays;
      for objects the member name read by `lexer::member`. */
  function Prolog(st: Strategy, sc: Scanner, lx: Lexer, count: nat): (r: Answer<Option<Key>>)
    requires WellBehaved(sc)
    ensures Follows(lx, r.lx)
    ensures st == Sequential ==> r == Answer(Some(Index(count)), lx)
    ensures st == Keyed ==> r.lx == sc.member(lx).lx && (r.v.Some? <==> sc.member(lx).v.Some?)
    ensures st == Keyed && r.v.Some? ==> r.v.value == Name(sc.member(lx).v.value)
  {
    match st
    case Sequential => Answer(Some(Index(count)), lx)
    case Keyed =>
      var m := sc.member(lx);
      Answer(if m.v.Some? then Some(Name(m.v.value)) else None, m.lx)
  }

  /** The body of the `do … while` loop, `switch(chr)`: the closing character
      ends the traversal successfully; a separator reads one item and, when
      the item fails, tolerates it only if `skip(I::skiplist)` succeeds; any
      other character ends it with failure. */
  function Dispatch<D(!new)>(st: Strategy, sc: Scanner, s: Structure<D>, dst: D, lx: Lexer, chr: char, count: nat): (r: Traversal<D>)
    requires WellBehaved(sc) && Forward(s)
    ensures Follows(lx, r.lx) && r.count >= count
    ensures r.count == count ==> r.dst == dst
    ensures chr == Finish(st) ==> r.ok && r.count == count
    ensures chr != Finish(st) && chr != ValueSeparator ==> !r.ok && r.count == count
    decreases Remaining(lx), 1
  {
    if chr == Finish(st) then Traversal(true, dst, lx, count)
    else if chr != ValueSeparator then Traversal(false, dst, lx, count)
    else
      var p := Prolog(st, sc, lx, count);
      if p.v.None? then Traversal(false, dst, p.lx, count)
      else
        var it := s.read(dst, p.lx, p.v.value);
        assert ReadFollows(s, dst, p.lx, p.v.value);
        var sk := if it.ok then Answer(true, it.lx) else sc.skipValue(it.lx, SkipList(st));
        FollowsTransitive(lx, p.lx, it.lx);
        FollowsTransitive(lx, it.lx, sk.lx);
        if !sk.v then Traversal(false, it.dst, sk.lx, count + 1)
        else
          var r := Continue(st, sc, s, it.dst, sk.lx, count + 1);
          FollowsTransitive(lx, sk.lx, r.lx);
          r
  }

  /** The loop condition: skip whitespace; a character of the middle role
      goes round the loop again, anything else (including the end of the
      input) is malformed. */
  function Continue<D(!new)>(st: Strategy, sc: Scanner, s: Structure<D>, dst: D, lx: Lexer, count: nat): (r: Traversal<D>)
    requires WellBehaved(sc) && Forward(s)
    ensures Follows(lx, r.lx) && r.count >= count
    ensures r.count == count ==> r.dst == dst
    decreases Remaining(lx), 0
  {
    var w := SkipWhile(lx, Whitespace);
    if IsValid(w.ct) && IsValid(AndMask(w.ct, Middle(st))) then
      var r := Dispatch(st, sc, s, dst, w.lx, w.ch, count);
      FollowsTransitive(lx, w.lx, r.lx);
      r
    else
      Traversal(false, dst, Raised(w.lx, Bad), count)
  }

  /** `collection<I>::read`: `lexer::value` classifies the opening token; a
      `null` token is accepted exactly when the structure's null rule says so,
      and is otherwise a mismatch; after the opening character, whitespace
      and an immediate closing character make an empty collection; otherwise
      the first significant character is pushed back and the loop starts as
      if after a separator. */
  function ReadCollection<D(!new)>(st: Strategy, sc: Scanner, s: Structure<D>, dst: D, lx: Lexer): (r: Traversal<D>)
    requires WellBehaved(sc) && Forward(s)
    ensures Follows(lx, r.lx)
    ensures !IsValid(sc.value(lx, Start(st)).v) ==> !r.ok && r.count == 0 && r.dst == dst
    ensures sc.value(lx, Start(st)).v == Roles(Null) ==>
      && (r.ok <==> s.onNull(dst))
      && (!r.ok ==> Has(r.lx.err, Mismatch))
      && r.count == 0 && r.dst == dst
  {
    var v := sc.value(lx, Start(st));
    if !IsValid(v.v) then Traversal(false, dst, v.lx, 0)
    else if v.v == Roles(Null) then
      if s.onNull(dst) then Traversal(true, dst, v.lx, 0)
      else
        FollowsTransitive(lx, v.lx, Raised(v.lx, Mismatch));
        Traversal(false, dst, Raised(v.lx, Mismatch), 0)
    else
      var g := GetMasked(v.lx, Middle(st));
      var r := Opened(st, sc, s, dst, g.lx);
      FollowsTransitive(lx, v.lx, g.lx);
      FollowsTransitive(lx, g.lx, r.lx);
      r
  }

  /** After the opening character: whitespace, then either the closing
      character (an empty collection) or the first item, whose first
      character is pushed back. */
  function Opened<D(!new)>(st: Strategy, sc: Scanner, s: Structure<D>, dst: D, lx: Lexer): (r: Traversal<D>)
    requires WellBehaved(sc) && Forward(s)
    ensures Follows(lx, r.lx)
    ensures r.count == 0 ==> r.dst == dst
    ensures !IsValid(SkipWhile(lx, Whitespace).ct) ==> !r.ok && r.count == 0
  {
    var w := SkipWhile(lx, Whitespace);
    if !IsValid(w.ct) then Traversal(false, dst, w.lx, 0)
    else if w.ch == Finish(st) then Traversal(true, dst, w.lx, 0)
    else
      GetThenBackAfterSkip(lx, Whitespace);
      var r := Dispatch(st, sc, s, dst, Back(w.lx, w.ch), ValueSeparator, 0);
      FollowsTransitive(lx, Back(w.lx, w.ch), r.lx);
      r
  }

  /** Reading the opening character leaves the rest of the collection pending. */
  lemma OpenedAfter<D(!new)>(st: Strategy, sc: Scanner, s: Structure<D>, dst: D, lx: Lexer, body: seq<char>)
    requires WellBehaved(sc) && Forward(s)
    requires IsValid(sc.value(lx, Start(st)).v) && sc.value(lx, Start(st)).v != Roles(Null)
    requires Pending(sc.value(lx, Start(st)).lx) == [Opening(st)] + body
    ensures Pending(GetMasked(sc.value(lx, Start(st)).lx, Middle(st)).lx) == body
    ensures ReadCollection(st, sc, s, dst, lx) == Opened(st, sc, s, dst, GetMasked(sc.value(lx, Start(st)).lx, Middle(st)).lx)
  {
    GetPending(sc.value(lx, Start(st)).lx);
  }

  predicate AllWs(ws: seq<char>) {
    forall k :: 0 <= k < |ws| ==> IsWs(ws[k])
  }

  /** An opening token followed, after whitespace, by the closing character is
      an empty collection: success, no item dispatched, destination untouched. */
  lemma EmptyCollection<D(!new)>(st: Strategy, sc: Scanner, s: Structure<D>, dst: D, lx: Lexer, ws: seq<char>, rest: seq<char>)
    requires WellBehaved(sc) && Forward(s)
    requires IsValid(sc.value(lx, Start(st)).v) && sc.value(lx, Start(st)).v != Roles(Null)
    requires Pending(sc.value(lx, Start(st)).lx) == [Opening(st)] + (ws + [Finish(st)] + rest) && AllWs(ws)
    ensures ReadCollection(st, sc, s, dst, lx).ok
    ensures ReadCollection(st, sc, s, dst, lx).count == 0 && ReadCollection(st, sc, s, dst, lx).dst == dst
  {
    OpenedAfter(st, sc, s, dst, lx, ws + [Finish(st)] + rest);
    OpenedEmpty(st, sc, s, dst, GetMasked(sc.value(lx, Start(st)).lx, Middle(st)).lx, ws, rest);
  }

  /** Whitespace and the closing character right after the opening one. */
  lemma OpenedEmpty<D(!new)>(st: Strategy, sc: Scanner, s: Structure<D>, dst: D, lx: Lexer, ws: seq<char>, rest: seq<char>)
    requires WellBehaved(sc) && Forward(s)
    requires Pending(lx) == ws + [Finish(st)] + rest && AllWs(ws)
    ensures Opened(st, sc, s, dst, lx).ok
    ensures Opened(st, sc, s, dst, lx).count == 0 && Opened(st, sc, s, dst, lx).dst == dst
  {
    SkipPending(lx, Whitespace, ws, Finish(st), rest);
  }

  /** After an item: whitespace, then a separator goes on to the next item,
      the closing character ends the traversal successfully, the opening
      character ends it with failure, and anything else (any character
      outside the middle role, or the end of the input) records malformed
      input and fails. */
  lemma AfterItem<D(!new)>(st: Strategy, sc: Scanner, s: Structure<D>, dst: D, lx: Lexer, count: nat, ws: seq<char>, c: char, rest: seq<char>)
    requires WellBehaved(sc) && Forward(s)
    requires Pending(lx) == ws + [c] + rest && AllWs(ws) && !IsWs(c)
    ensures var r := Continue(st, sc, s, dst, lx, count);
      && (c == ValueSeparator ==> r == Dispatch(st, sc, s, dst, SkipWhile(lx, Whitespace).lx, ValueSeparator, count))
      && (c == Finish(st) ==> r.ok && r.dst == dst && r.count == count)
      && (c == Opening(st) ==> !r.ok && r.lx.err == lx.err)
      && (c != Opening(st) && c != ValueSeparator && c != Finish(st) ==> !r.ok && Has(r.lx.err, Bad))
  {
    SkipPending(lx, Whitespace, ws, c, rest);
    MiddleChars(st, c);
    HasBitsIsValidMask(CharType(c), Middle(st));
  }

  /** Only whitespace left after an item: the input ended inside the
      collection, which is malformed. */
  lemma EndsInsideCollection<D(!new)>(st: Strategy, sc: Scanner, s: Structure<D>, dst: D, lx: Lexer, count: nat, ws: seq<char>)
    requires WellBehaved(sc) && Forward(s)
    requires Pending(lx) == ws && AllWs(ws)
    ensures !Continue(st, sc, s, dst, lx, count).ok && Has(Continue(st, sc, s, dst, lx, count).lx.err, Bad)
  {
    SkipToEnd(lx, ws);
  }

  lemma {:induction false} SkipToEnd(lx: Lexer, ws: seq<char>)
    requires Pending(lx) == ws && AllWs(ws)
    ensures !IsValid(SkipWhile(lx, Whitespace).ct)
    decreases |ws|
  {
    SkipWhileOnce(lx, Whitespace);
    if ws == [] {
      GetNothingPending(lx);
    } else {
      GetPending(lx);
      SkipToEnd(Get(lx).lx, ws[1..]);
    }
  }

  /** A failed item is tolerated exactly when `skip(I::skiplist)` succeeds:
      the traversal then goes on from where the skip left the stream, and
      otherwise it fails. */
  lemma FailedItem<D(!new)>(st: Strategy, sc: Scanner, s: Structure<D>, dst: D, lx: Lexer, count: nat)
    requires WellBehaved(sc) && Forward(s)
    requires Prolog(st, sc, lx, count).v.Some?
    requires !s.read(dst, Prolog(st, sc, lx, count).lx, Prolog(st, sc, lx, count).v.value).ok
    ensures var it := s.read(dst, Prolog(st, sc, lx, count).lx, Prolog(st, sc, lx, count).v.value);
      var sk := sc.skipValue(it.lx, SkipList(st));
      Dispatch(st, sc, s, dst, lx, ValueSeparator, count) ==
        if sk.v then Continue(st, sc, s, it.dst, sk.lx, count + 1)
        else Traversal(false, it.dst, sk.lx, count + 1)
  {
  }

  /** The text pending at `l` is `item` followed by what may follow an array
      item: a separator or the closing bracket. */
  predicate ItemThenDelim(l: Lexer, item: string) {
    var p := Pending(l);
    |item| < |p| && p[..|item|] == item && (p[|item|] == ValueSeparator || p[|item|] == EndArray)
  }

  /** The reader reads item `i` of `items` exactly: started with the item's
      text pending, followed by a separator or the closing bracket, it
      succeeds and leaves that character and the rest pending. */
  ghost predicate ReadsItem<D(!new)>(s: Structure<D>, items: seq<string>, d: D, l: Lexer, i: nat) {
    i < |items| && ItemThenDelim(l, items[i]) ==>
      && s.read(d, l, Index(i)).ok
      && Pending(s.read(d, l, Index(i)).lx) == Pending(l)[|items[i]|..]
  }

  /** An array item reader that reads each item of `items` exactly. */
  ghost predicate ReadsItems<D(!new)>(s: Structure<D>, items: seq<string>) {
    forall d, l, i: nat {:trigger ReadsItem(s, items, d, l, i)} :: ReadsItem(s, items, d, l, i)
  }

  /** An item the traversal hands over intact when it comes first after the
      opening bracket: it starts with a character above space (so neither
      whitespace nor unclassified) other than the closing bracket. */
  predicate Element(x: string) {
    |x| >= 1 && IsStringChar(x[0]) && x[0] != EndArray
  }

  /** The reader's contract for one item. */
  lemma ItemRead<D(!new)>(s: Structure<D>, items: seq<string>, i: nat, d: D, l: Lexer, after: seq<char>)
    requires ReadsItems(s, items) && i < |items|
    requires Pending(l) == items[i] + after && after != [] && (after[0] == ValueSeparator || after[0] == EndArray)
    ensures s.read(d, l, Index(i)).ok && Pending(s.read(d, l, Index(i)).lx) == after
  {
    assert Pending(l)[..|items[i]|] == items[i] && Pending(l)[|items[i]|..] == after;
    assert ItemThenDelim(l, items[i]);
    assert ReadsItem(s, items, d, l, i);
  }

  /** A successful array item goes on with the loop condition. */
  lemma DispatchItem<D(!new)>(sc: Scanner, s: Structure<D>, dst: D, lx: Lexer, i: nat)
    requires WellBehaved(sc) && Forward(s)
    requires s.read(dst, lx, Index(i)).ok
    ensures Dispatch(Sequential, sc, s, dst, lx, ValueSeparator, i) ==
      Continue(Sequential, sc, s, s.read(dst, lx, Index(i)).dst, s.read(dst, lx, Index(i)).lx, i + 1)
  {
  }

  /** The destination after the array items from `i` on are read in order:
      item `k` is handed to the reader once, with key `Index(k)`, from the
      stream just past the separator that precedes it. */
  function ReadInOrder<D(!new)>(s: Structure<D>, n: nat, i: nat, dst: D, lx: Lexer): D
    requires i < n
    decreases n - i
  {
    var it := s.read(dst, lx, Index(i));
    if i + 1 == n then it.dst else ReadInOrder(s, n, i + 1, it.dst, Get(it.lx).lx)
  }

  /** From item `i` on: the items and the closing bracket are pending, so
      the traversal reads all of them, in order, and succeeds. */
  lemma {:induction false} ReadsRemainingItems<D(!new)>(sc: Scanner, s: Structure<D>, items: seq<string>, i: nat, dst: D, lx: Lexer, rest: seq<char>)
    requires WellBehaved(sc) && Forward(s) && ReadsItems(s, items)
    requires i < |items|
    requires Pending(lx) == JoinFrom(items, i) + [EndArray] + rest
    ensures Dispatch(Sequential, sc, s, dst, lx, ValueSeparator, i).ok
    ensures Dispatch(Sequential, sc, s, dst, lx, ValueSeparator, i).count == |items|
    ensures Dispatch(Sequential, sc, s, dst, lx, ValueSeparator, i).dst == ReadInOrder(s, |items|, i, dst, lx)
    decreases |items| - i
  {
    var last := i + 1 == |items|;
    var c := if last then EndArray else ValueSeparator;
    var tail := if last then rest else JoinFrom(items, i + 1) + [EndArray] + rest;
    assert Pending(lx) == items[i] + ([] + [c] + tail);
    ItemRead(s, items, i, dst, lx, [] + [c] + tail);
    var it := s.read(dst, lx, Index(i));
    DispatchItem(sc, s, dst, lx, i);
    AfterItem(Sequential, sc, s, it.dst, it.lx, i + 1, [], c, tail);
    if !last {
      assert Pending(it.lx) == [c] + tail;
      SkipPendingStop(it.lx, Whitespace, c, tail);
      ReadsRemainingItems(sc, s, items, i + 1, it.dst, Get(it.lx).lx, rest);
    }
  }

  /** The stream the first item is read from once the opening character is
      read: the next character read and pushed back. */
  function FirstItemStream(lx: Lexer): Lexer {
    Back(Get(lx).lx, Get(lx).ch)
  }

  /** Reading what `array::write` writes: given an item reader that reads
      each item exactly, the traversal of `[` items `]` succeeds and
      dispatches every item. */
  lemma ReadsArrayText<D(!new)>(sc: Scanner, s: Structure<D>, items: seq<string>, dst: D, lx: Lexer, rest: seq<char>)
    requires WellBehaved(sc) && Forward(s) && ReadsItems(s, items)
    requires |items| >= 1 && Element(items[0])
    requires IsValid(sc.value(lx, ArrayNull).v) && sc.value(lx, ArrayNull).v != Roles(Null)
    requires Pending(sc.value(lx, ArrayNull).lx) == ArrayText(items) + rest
    ensures ReadCollection(Sequential, sc, s, dst, lx).ok
    ensures ReadCollection(Sequential, sc, s, dst, lx).count == |items|
  {
    ArrayTextOpens(sc, s, items, dst, lx, rest);
    ReadsOpenedItems(sc, s, items, dst, Get(sc.value(lx, ArrayNull).lx).lx, rest);
  }

  /** The same traversal hands the items to the reader once each, in order:
      the destination is the in-order fold, started from the stream with
      the items' text pending (`FirstItemPending`). */
  lemma ReadsArrayInOrder<D(!new)>(sc: Scanner, s: Structure<D>, items: seq<string>, dst: D, lx: Lexer, rest: seq<char>)
    requires WellBehaved(sc) && Forward(s) && ReadsItems(s, items)
    requires |items| >= 1 && Element(items[0])
    requires IsValid(sc.value(lx, ArrayNull).v) && sc.value(lx, ArrayNull).v != Roles(Null)
    requires Pending(sc.value(lx, ArrayNull).lx) == ArrayText(items) + rest
    ensures ReadCollection(Sequential, sc, s, dst, lx).dst == ReadInOrder(s, |items|, 0, dst, FirstItemStream(Get(sc.value(lx, ArrayNull).lx).lx))
  {
    ArrayTextOpens(sc, s, items, dst, lx, rest);
    ReadsOpenedItems(sc, s, items, dst, Get(sc.value(lx, ArrayNull).lx).lx, rest);
  }

  /** The stream the in-order fold starts from has the items' text pending. */
  lemma FirstItemPending(sc: Scanner, items: seq<string>, lx: Lexer, rest: seq<char>)
    requires WellBehaved(sc) && |items| >= 1 && Element(items[0])
    requires Pending(sc.value(lx, ArrayNull).lx) == ArrayText(items) + rest
    ensures Pending(FirstItemStream(Get(sc.value(lx, ArrayNull).lx).lx)) == Join(items) + [EndArray] + rest
  {
    var body := Join(items) + [EndArray] + rest;
    assert ArrayText(items) + rest == [BeginArray] + body;
    JoinStarts(items);
    OpenThenPushBack(sc.value(lx, ArrayNull).lx, items[0][0], body);
  }

  /** Reading the opening character, then reading the next one and pushing
      it back, leaves everything after the opening character pending. */
  lemma OpenThenPushBack(v: Lexer, c: char, body: seq<char>)
    requires |body| >= 1 && body[0] == c && c != NoChar
    requires Pending(v) == [BeginArray] + body
    ensures Pending(FirstItemStream(Get(v).lx)) == body
  {
    GetPending(v);
    var l := Get(v).lx;
    assert Pending(l) == body;
    GetPending(l);
    assert Get(l).ch == c && Pending(Get(l).lx) == body[1..];
    BackPending(Get(l).lx, c);
  }

  /** Past the opening bracket the items and the closing bracket are pending. */
  lemma ArrayTextOpens<D(!new)>(sc: Scanner, s: Structure<D>, items: seq<string>, dst: D, lx: Lexer, rest: seq<char>)
    requires WellBehaved(sc) && Forward(s) && ReadsItems(s, items)
    requires |items| >= 1 && Element(items[0])
    requires IsValid(sc.value(lx, ArrayNull).v) && sc.value(lx, ArrayNull).v != Roles(Null)
    requires Pending(sc.value(lx, ArrayNull).lx) == ArrayText(items) + rest
    ensures ReadCollection(Sequential, sc, s, dst, lx) == Opened(Sequential, sc, s, dst, Get(sc.value(lx, ArrayNull).lx).lx)
    ensures Pending(Get(sc.value(lx, ArrayNull).lx).lx) == Join(items) + [EndArray] + rest
  {
    var body := Join(items) + [EndArray] + rest;
    assert ArrayText(items) + rest == [BeginArray] + body;
    OpenedAfter(Sequential, sc, s, dst, lx, body);
  }

  lemma ReadsOpenedItems<D(!new)>(sc: Scanner, s: Structure<D>, items: seq<string>, dst: D, lx: Lexer, rest: seq<char>)
    requires WellBehaved(sc) && Forward(s) && ReadsItems(s, items)
    requires |items| >= 1 && Element(items[0])
    requires Pending(lx) == Join(items) + [EndArray] + rest
    ensures Opened(Sequential, sc, s, dst, lx).ok
    ensures Opened(Sequential, sc, s, dst, lx).count == |items|
    ensures Pending(FirstItemStream(lx)) == Join(items) + [EndArray] + rest
    ensures Opened(Sequential, sc, s, dst, lx).dst == ReadInOrder(s, |items|, 0, dst, FirstItemStream(lx))
  {
    var body := Join(items) + [EndArray] + rest;
    JoinStarts(items);
    assert body == [items[0][0]] + body[1..];
    SkipPendingStop(lx, Whitespace, items[0][0], body[1..]);
    FirstItem(Sequential, sc, s, dst, lx, items[0][0], body[1..]);
    ReadsRemainingItems(sc, s, items, 0, dst, FirstItemStream(lx), rest);
  }

  /** A collection that does not close at once starts its loop with the first
      significant character pending again. */
  lemma FirstItem<D(!new)>(st: Strategy, sc: Scanner, s: Structure<D>, dst: D, lx: Lexer, c: char, tail: seq<char>)
    requires WellBehaved(sc) && Forward(s)
    requires Pending(lx) == [c] + tail && !IsWs(c) && IsValid(CharType(c)) && c != Finish(st)
    ensures Pending(Back(SkipWhile(lx, Whitespace).lx, c)) == [c] + tail
    ensures Opened(st, sc, s, dst, lx) == Dispatch(st, sc, s, dst, Back(SkipWhile(lx, Whitespace).lx, c), ValueSeparator, 0)
  {
    SkipPending(lx, Whitespace, [], c, tail);
  }

  lemma JoinStarts(items: seq<string>)
    requires |items| >= 1 && |items[0]| >= 1
    ensures |Join(items)| >= 1 && Join(items)[0] == items[0][0]
  {
  }
}
