/**
 * The bindings between JSON and C++ storage that drive the traversal and the
 * value readers: the item readers of `array`, `vector` and `clas`, the null
 * rules, and the three destination paths of `scalar` and `propertyx`.
 *
 * Storage is passed in and returned: a destination value, a fixed-capacity
 * vector as a sequence, an object with a field as a getter and a setter.
 * The value reader of the element type (`reader<T>::read`) is a parameter,
 * as the reader of `Numbers` or of any other type can be plugged in.
 */
module Bindings {
  import opened Errors
  import opened CharClass
  import opened Literals
  import opened Lexing
  import opened Options
  import opened Collections

  /** `value::null`: a JSON null is accepted unless the configuration
      (`config::null_is_error`) makes it an error. */
  function ValueNull(nullIsError: bool): bool {
    !nullIsError
  }

  /** `clas::null` as the source has it: the configuration flag itself, so a
      null is accepted exactly when it is configured to be an error. */
  function ClasNullAsWritten(nullIsError: bool): bool {
    nullIsError
  }

  /** `clas::null` as intended: the rule of `value::null`. */
  function ClasNull(nullIsError: bool): bool {
    ValueNull(nullIsError)
  }

  /** The empty destination `void_t` of arrays, whose items hold their own storage. */
  datatype Void = Void

  /** What `reader<T>::read(dst, in)` returns: success, the destination, the stream. */
  datatype Read<T> = Read(ok: bool, val: T, lx: Lexer)

  /** A value reader moves the stream forward only. */
  ghost predicate Advances<T(!new)>(rd: (T, Lexer) -> Read<T>) {
    forall v, l :: Follows(l, rd(v, l).lx)
  }

  /** Every item of a heterogeneous array moves the stream forward only. */
  ghost predicate ValuesAdvance(items: seq<Lexer -> Answer<bool>>) {
    forall i, l :: 0 <= i < |items| ==> Follows(l, items[i](l).lx)
  }

  /** `array::read(void_t, in, i)`: an item within the array is read by its
      own value reader, and a failed read is tolerated when the value can be
      skipped; an index past the end records an overrun and reads nothing. */
  function ArrayItem(items: seq<Lexer -> Answer<bool>>, sc: Scanner, lx: Lexer, i: nat): (r: Answer<bool>)
    ensures i >= |items| ==> !r.v && r.lx == Raised(lx, Overrun) && Pending(r.lx) == Pending(lx)
    ensures i < |items| ==> (r.v <==> items[i](lx).v || sc.skipValue(items[i](lx).lx, false).v)
  {
    if i < |items| then
      var a := items[i](lx);
      if a.v then a else sc.skipValue(a.lx, false)
    else
      Answer(false, Raised(lx, Overrun))
  }

  /** The array as the structure of the traversal, with `value::null`. */
  function ArrayStructure(items: seq<Lexer -> Answer<bool>>, sc: Scanner, nullIsError: bool): Structure<Void> {
    Structure(
      (d: Void, l: Lexer, k: Key) =>
        match k
        case Index(i) => var a := ArrayItem(items, sc, l, i); Item(a.v, d, a.lx)
        case Name(_) => Item(false, d, l),
      (d: Void) => ValueNull(nullIsError))
  }

  lemma ArrayStructureForward(items: seq<Lexer -> Answer<bool>>, sc: Scanner, nullIsError: bool)
    requires WellBehaved(sc) && ValuesAdvance(items)
    ensures Forward(ArrayStructure(items, sc, nullIsError))
  {
    forall d, l, k ensures ReadFollows(ArrayStructure(items, sc, nullIsError), d, l, k) {
      if k.Index? && k.i < |items| {
        var a := items[k.i](l);
        if !a.v {
          FollowsTransitive(l, a.lx, sc.skipValue(a.lx, false).lx);
        }
      }
    }
  }

  /** `array::read(in)`: the array traversal over the items. */
  function ReadArray(items: seq<Lexer -> Answer<bool>>, sc: Scanner, nullIsError: bool, lx: Lexer): (r: Traversal<Void>)
    requires WellBehaved(sc) && ValuesAdvance(items)
    ensures Follows(lx, r.lx)
    ensures sc.value(lx, ArrayNull).v == Roles(Null) ==> (r.ok <==> !nullIsError)
  {
    ArrayStructureForward(items, sc, nullIsError);
    ReadCollection(Sequential, sc, ArrayStructure(items, sc, nullIsError), Void, lx)
  }

  /** The accessor of a vector: whether it can store (`canset`, `canlref`),
      the initial element (`init`), and its null rule. */
  datatype VectorAccess<T> = VectorAccess(canset: bool, canlref: bool, init: T, acceptsNull: bool)

  /** `vector::read(void_t, in, i)`: within capacity (`X::has(i)`) an element
      is read from `X::init` and stored at `i` on success, and a failed read is
      tolerated when the value can be skipped; past capacity an overrun is
      recorded, nothing is read and the vector is untouched. */
  function VectorItem<T>(acc: VectorAccess<T>, rd: (T, Lexer) -> Read<T>, sc: Scanner, dst: seq<T>, lx: Lexer, i: nat): (r: Item<seq<T>>)
    ensures |r.dst| == |dst|
    ensures i >= |dst| ==> !r.ok && r.dst == dst && r.lx == Raised(lx, Overrun) && Pending(r.lx) == Pending(lx)
    ensures i < |dst| && rd(acc.init, lx).ok ==> r.ok && r.dst == dst[i := rd(acc.init, lx).val]
    ensures i < |dst| && !rd(acc.init, lx).ok ==> r.dst == dst && (r.ok <==> sc.skipValue(rd(acc.init, lx).lx, false).v)
  {
    if i < |dst| then
      var v := rd(acc.init, lx);
      if v.ok then Item(true, dst[i := v.val], v.lx)
      else
        var sk := sc.skipValue(v.lx, false);
        Item(sk.v, dst, sk.lx)
    else
      Item(false, dst, Raised(lx, Overrun))
  }

  /** The vector as the structure of the traversal, with the accessor's null rule. */
  function VectorStructure<T>(acc: VectorAccess<T>, rd: (T, Lexer) -> Read<T>, sc: Scanner): Structure<seq<T>> {
    Structure(
      (d: seq<T>, l: Lexer, k: Key) =>
        match k
        case Index(i) => VectorItem(acc, rd, sc, d, l, i)
        case Name(_) => Item(false, d, l),
      (d: seq<T>) => acc.acceptsNull)
  }

  lemma VectorStructureForward<T(!new)>(acc: VectorAccess<T>, rd: (T, Lexer) -> Read<T>, sc: Scanner)
    requires WellBehaved(sc) && Advances(rd)
    ensures Forward(VectorStructure(acc, rd, sc))
  {
    forall d, l, k ensures ReadFollows(VectorStructure(acc, rd, sc), d, l, k) {
      if k.Index? && k.i < |d| {
        var v := rd(acc.init, l);
        if !v.ok {
          FollowsTransitive(l, v.lx, sc.skipValue(v.lx, false).lx);
        }
      }
    }
  }

  /** `vector::read(in)`: a vector that can store elements is read as an
      array; one that cannot records that there is no destination and skips
      the value. */
  function ReadVector<T(!new)>(acc: VectorAccess<T>, rd: (T, Lexer) -> Read<T>, sc: Scanner, dst: seq<T>, lx: Lexer): (r: Traversal<seq<T>>)
    requires WellBehaved(sc) && Advances(rd)
    ensures Follows(lx, r.lx) && |r.dst| == |dst|
    ensures (acc.canset || acc.canlref) && sc.value(lx, ArrayNull).v == Roles(Null) ==>
      (r.ok <==> acc.acceptsNull) && r.dst == dst && r.count == 0
    ensures !acc.canset && !acc.canlref ==>
      r == Traversal(sc.skipValue(Raised(lx, NoObject), false).v, dst, sc.skipValue(Raised(lx, NoObject), false).lx, 0)
  {
    if acc.canset || acc.canlref then
      VectorStructureForward(acc, rd, sc);
      var r := ReadCollection(Sequential, sc, VectorStructure(acc, rd, sc), dst, lx);
      VectorKeepsLength(acc, rd, sc, dst, lx);
      r
    else
      var sk := sc.skipValue(Raised(lx, NoObject), false);
      FollowsTransitive(lx, Raised(lx, NoObject), sk.lx);
      Traversal(sk.v, dst, sk.lx, 0)
  }

  /** The traversal never grows or shrinks a vector: elements are only
      stored at indexes within capacity. */
  lemma VectorKeepsLength<T(!new)>(acc: VectorAccess<T>, rd: (T, Lexer) -> Read<T>, sc: Scanner, dst: seq<T>, lx: Lexer)
    requires WellBehaved(sc) && Forward(VectorStructure(acc, rd, sc))
    ensures |ReadCollection(Sequential, sc, VectorStructure(acc, rd, sc), dst, lx).dst| == |dst|
  {
    var v := sc.value(lx, Start(Sequential));
    if IsValid(v.v) && v.v != Roles(Null) {
      var g := GetMasked(v.lx, Middle(Sequential));
      var w := SkipWhile(g.lx, Whitespace);
      if IsValid(w.ct) && w.ch != Finish(Sequential) {
        DispatchKeepsLength(acc, rd, sc, dst, Back(w.lx, w.ch), ValueSeparator, 0);
      }
    }
  }

  lemma {:induction false} DispatchKeepsLength<T(!new)>(acc: VectorAccess<T>, rd: (T, Lexer) -> Read<T>, sc: Scanner, dst: seq<T>, lx: Lexer, chr: char, count: nat)
    requires WellBehaved(sc) && Forward(VectorStructure(acc, rd, sc))
    ensures |Dispatch(Sequential, sc, VectorStructure(acc, rd, sc), dst, lx, chr, count).dst| == |dst|
    decreases Remaining(lx), 1
  {
    var s := VectorStructure(acc, rd, sc);
    if chr == ValueSeparator {
      var it := s.read(dst, lx, Index(count));
      assert ReadFollows(s, dst, lx, Index(count));
      var sk := if it.ok then Answer(true, it.lx) else sc.skipValue(it.lx, SkipList(Sequential));
      if sk.v {
        FollowsTransitive(lx, it.lx, sk.lx);
        ContinueKeepsLength(acc, rd, sc, it.dst, sk.lx, count + 1);
      }
    }
  }

  lemma {:induction false} ContinueKeepsLength<T(!new)>(acc: VectorAccess<T>, rd: (T, Lexer) -> Read<T>, sc: Scanner, dst: seq<T>, lx: Lexer, count: nat)
    requires WellBehaved(sc) && Forward(VectorStructure(acc, rd, sc))
    ensures |Continue(Sequential, sc, VectorStructure(acc, rd, sc), dst, lx, count).dst| == |dst|
    decreases Remaining(lx), 0
  {
    var w := SkipWhile(lx, Whitespace);
    if IsValid(w.ct) && IsValid(AndMask(w.ct, Middle(Sequential))) {
      DispatchKeepsLength(acc, rd, sc, dst, w.lx, w.ch, count);
    }
  }

  /** A property of a class: its member name and its reader (`property::read`). */
  datatype Prop<!C> = Prop(name: string, read: (C, Lexer) -> Item<C>)

  /** No property from index `i` on is named `name`. */
  predicate NoMatchFrom<C>(props: seq<Prop<C>>, name: string, i: nat) {
    forall j :: i <= j < |props| ==> props[j].name != name
  }

  /** Property `k` is the first one from index `i` on that is named `name`. */
  predicate FirstMatchFrom<C>(props: seq<Prop<C>>, name: string, i: nat, k: nat) {
    i <= k < |props| && props[k].name == name && forall j :: i <= j < k ==> props[j].name != name
  }

  /** The loop of `clas::read(obj, in, name)` from property `i` on. */
  function ClasReadFrom<C>(props: seq<Prop<C>>, i: nat, obj: C, lx: Lexer, name: string): (r: Item<C>)
    requires i <= |props|
    ensures r.ok <==> !NoMatchFrom(props, name, i)
    ensures !r.ok ==> r == Item(false, obj, lx)
    decreases |props| - i
  {
    if i == |props| then Item(false, obj, lx)
    else if props[i].name == name then
      var it := props[i].read(obj, lx);
      Item(true, it.dst, it.lx)
    else ClasReadFrom(props, i + 1, obj, lx, name)
  }

  /** The loop stops at the first property with the member's name, and
      what that property's reader reports is the outcome. */
  lemma {:induction false} ClasReadFromFirst<C>(props: seq<Prop<C>>, i: nat, obj: C, lx: Lexer, name: string, k: nat)
    requires FirstMatchFrom(props, name, i, k)
    ensures ClasReadFrom(props, i, obj, lx, name) == Item(true, props[k].read(obj, lx).dst, props[k].read(obj, lx).lx)
    decreases k - i
  {
    if i < k {
      assert props[i].name != name;
      ClasReadFromFirst(props, i + 1, obj, lx, name, k);
    }
  }

  /** `clas::read(obj, in, name)`: the first property whose name matches
      reads the value and the member counts as read whatever that property's
      reader reports; no match is a failure that reads nothing. */
  function ClasRead<C>(props: seq<Prop<C>>, obj: C, lx: Lexer, name: string): (r: Item<C>)
    ensures NoMatchFrom(props, name, 0) ==> r == Item(false, obj, lx)
    ensures forall k: nat :: FirstMatchFrom(props, name, 0, k) ==>
      r == Item(true, props[k].read(obj, lx).dst, props[k].read(obj, lx).lx)
  {
    forall k: nat | FirstMatchFrom(props, name, 0, k)
      ensures ClasReadFrom(props, 0, obj, lx, name) == Item(true, props[k].read(obj, lx).dst, props[k].read(obj, lx).lx)
    {
      ClasReadFromFirst(props, 0, obj, lx, name, k);
    }
    ClasReadFrom(props, 0, obj, lx, name)
  }

  /** Every property reader moves the stream forward only. */
  ghost predicate PropsAdvance<C(!new)>(props: seq<Prop<C>>) {
    forall i, o, l :: 0 <= i < |props| ==> Follows(l, props[i].read(o, l).lx)
  }

  /** The class as the structure of the traversal, with a given null rule. */
  function ClasStructure<C>(props: seq<Prop<C>>, acceptsNull: bool): Structure<C> {
    Structure(
      (d: C, l: Lexer, k: Key) =>
        match k
        case Name(n) => ClasRead(props, d, l, n)
        case Index(_) => Item(false, d, l),
      (d: C) => acceptsNull)
  }

  lemma ClasStructureForward<C(!new)>(props: seq<Prop<C>>, acceptsNull: bool)
    requires PropsAdvance(props)
    ensures Forward(ClasStructure(props, acceptsNull))
  {
    forall d, l, k ensures ReadFollows(ClasStructure(props, acceptsNull), d, l, k) {
      if k.Name? {
        ClasReadForward(props, 0, d, l, k.name);
      }
    }
  }

  lemma {:induction false} ClasReadForward<C(!new)>(props: seq<Prop<C>>, i: nat, obj: C, lx: Lexer, name: string)
    requires PropsAdvance(props) && i <= |props|
    ensures Follows(lx, ClasReadFrom(props, i, obj, lx, name).lx)
    decreases |props| - i
  {
    if i < |props| && props[i].name != name {
      ClasReadForward(props, i + 1, obj, lx, name);
    }
  }

  /** `clas::read(obj, in)`: the object traversal over the properties, with
      the null rule of `clas::null`, as the source has it or as intended. */
  function ReadClas<C(!new)>(props: seq<Prop<C>>, asWritten: bool, nullIsError: bool, sc: Scanner, obj: C, lx: Lexer): (r: Traversal<C>)
    requires WellBehaved(sc) && PropsAdvance(props)
    ensures Follows(lx, r.lx)
    ensures sc.value(lx, ObjectNull).v == Roles(Null) ==>
      && r.dst == obj && r.count == 0
      && (r.ok <==> if asWritten then nullIsError else !nullIsError)
      && (!r.ok ==> Has(r.lx.err, Mismatch))
  {
    var acceptsNull := if asWritten then ClasNullAsWritten(nullIsError) else ClasNull(nullIsError);
    ClasStructureForward(props, acceptsNull);
    ReadCollection(Keyed, sc, ClasStructure(props, acceptsNull), obj, lx)
  }

  /** With nulls configured as errors, the source's class reader accepts a
      JSON null silently, while the corrected one reports a mismatch, as
      every other value does. */
  lemma ClasNullInverted<C(!new)>(props: seq<Prop<C>>, sc: Scanner, obj: C, lx: Lexer)
    requires WellBehaved(sc) && PropsAdvance(props)
    requires sc.value(lx, ObjectNull).v == Roles(Null)
    ensures ReadClas(props, true, true, sc, obj, lx).ok
    ensures !ReadClas(props, false, true, sc, obj, lx).ok
    ensures Has(ReadClas(props, false, true, sc, obj, lx).lx.err, Mismatch)
  {
  }

  /** The accessor of a scalar or a property: `canlref` with `has()` (a
      reference to the storage can be taken), `canset` (the storage can be
      assigned), and the value `init` gives a temporary. */
  datatype Access<T> = Access(canlref: bool, has: bool, canset: bool, init: T)

  /** The result of binding a value: success, the storage, the stream. */
  datatype Bound<T> = Bound(ok: bool, dst: T, lx: Lexer)

  /** `scalar<X>::read`: read in place through a reference when there is
      one; otherwise read into a temporary from `X::init` and assign it on
      success; with neither, record that there is no destination and skip
      the value. */
  function ReadScalar<T>(acc: Access<T>, rd: (T, Lexer) -> Read<T>, sc: Scanner, dst: T, lx: Lexer): (r: Bound<T>)
    ensures acc.canlref && acc.has ==> r == Bound(rd(dst, lx).ok, rd(dst, lx).val, rd(dst, lx).lx)
    ensures !(acc.canlref && acc.has) && acc.canset ==>
      && r.ok == rd(acc.init, lx).ok
      && r.dst == (if r.ok then rd(acc.init, lx).val else dst)
      && r.lx == rd(acc.init, lx).lx
    ensures !(acc.canlref && acc.has) && !acc.canset ==>
      r == Bound(sc.skipValue(Raised(lx, NoObject), false).v, dst, sc.skipValue(Raised(lx, NoObject), false).lx)
  {
    if acc.canlref && acc.has then
      var v := rd(dst, lx);
      Bound(v.ok, v.val, v.lx)
    else if acc.canset then
      var v := rd(acc.init, lx);
      if v.ok then Bound(true, v.val, v.lx) else Bound(false, dst, v.lx)
    else
      var sk := sc.skipValue(Raised(lx, NoObject), false);
      Bound(sk.v, dst, sk.lx)
  }

  /** Only the in-place path can leave the storage changed after a failed
      read; the other two paths change it only on success. */
  lemma ScalarFailureKeepsStorage<T>(acc: Access<T>, rd: (T, Lexer) -> Read<T>, sc: Scanner, dst: T, lx: Lexer)
    requires !(acc.canlref && acc.has)
    requires !ReadScalar(acc, rd, sc, dst, lx).ok
    ensures ReadScalar(acc, rd, sc, dst, lx).dst == dst
  {
  }

  /** A field of a class: `X::lref(obj)`/`X::get(obj)` and `X::set(obj, v)` (`put`). */
  datatype Field<!C, !T> = Field(get: C -> T, put: (C, T) -> C)

  /** Assigning a field the value it already holds changes nothing. */
  ghost predicate Lawful<C(!new), T>(f: Field<C, T>) {
    forall o :: f.put(o, f.get(o)) == o
  }

  /** `propertyx<X>::read`: the three paths of the scalar, on a field of `obj`. */
  function ReadProperty<C, T>(acc: Access<T>, f: Field<C, T>, rd: (T, Lexer) -> Read<T>, sc: Scanner, obj: C, lx: Lexer): (r: Bound<C>)
    ensures !(acc.canlref && acc.has) && !r.ok ==> r.dst == obj
  {
    if acc.canlref && acc.has then
      var v := rd(f.get(obj), lx);
      Bound(v.ok, f.put(obj, v.val), v.lx)
    else if acc.canset then
      var v := rd(acc.init, lx);
      if v.ok then Bound(true, f.put(obj, v.val), v.lx) else Bound(false, obj, v.lx)
    else
      var sk := sc.skipValue(Raised(lx, NoObject), false);
      Bound(sk.v, obj, sk.lx)
  }

  /** A property read is the scalar read of the field's value, stored back
      into the object. */
  lemma PropertyIsFieldScalar<C(!new), T>(acc: Access<T>, f: Field<C, T>, rd: (T, Lexer) -> Read<T>, sc: Scanner, obj: C, lx: Lexer)
    requires Lawful(f)
    ensures var s := ReadScalar(acc, rd, sc, f.get(obj), lx);
      ReadProperty(acc, f, rd, sc, obj, lx) == Bound(s.ok, f.put(obj, s.dst), s.lx)
  {
    assert f.put(obj, f.get(obj)) == obj;
  }
}
