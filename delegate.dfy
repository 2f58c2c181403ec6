/** The type-erased one-argument callback (`Callback1`). Its storage is either
    empty or holds one of two bindings: a free function, or an object together
    with a member function. Equality, ordering, `IsSet` and invocation are case
    analyses on that binding; `Reset` and assignment overwrite it. */
module Delegate {
  import Memory

  /** A code or data address. 0 is the null pointer. */
  type Address = nat

  /** Bytes of a member-function pointer; compared with `compare_mem` over `sizeof(mFunc)` bytes. */
  const MethodPtrSize: nat := 16

  type MethodPtr = s: seq<bv8> | |s| == MethodPtrSize witness seq(MethodPtrSize, _ => 0)

  /** What `Comp()` of a free-function binding returns: a null object pointer. */
  const FreeComp: Address := 0

  /** `Unset` is a null `mCallback`; otherwise `mCallback` points at a
      `ChildFree` or `ChildMethod` placed in the callback's own storage. */
  datatype Binding =
    | Unset
    | Free(fn: Address)
    | Method(obj: Address, meth: MethodPtr)

  /** One call of a target: what a set callback does with its argument. */
  datatype Invocation<A> =
    | FreeCall(fn: Address, arg: A)
    | MethodCall(obj: Address, meth: MethodPtr, arg: A)

  /** The binding an invocation went to. */
  function Target<A>(c: Invocation<A>): (b: Binding)
    ensures b != Unset
  {
    match c
    case FreeCall(f, _) => Free(f)
    case MethodCall(o, m, _) => Method(o, m)
  }

  /** `IsSet`: whether `mCallback` is non-null. */
  predicate IsSet(b: Binding) {
    !b.Unset?
  }

  /** `operator==`. Two set callbacks compare their bindings: a free function
      equals only a free binding of the same function, a method binding only a
      method binding of the same object and method. Otherwise the two
      `mCallback` pointers are compared, which are equal only when both are
      null, because a set callback points into its own storage. */
  predicate Equal(a: Binding, b: Binding)
    ensures Equal(a, b) <==> a == b
  {
    if IsSet(a) && IsSet(b) then
      match a
      case Free(f) => b.Free? && f == b.fn
      case Method(o, m) => b.Method? && o == b.obj && m == b.meth
    else
      !IsSet(a) && !IsSet(b)
  }

  /** `operator<`. Two set callbacks compare their bindings: free functions by
      address, a free binding before any method binding, a method binding
      against a free one by its object against the free binding's `Comp()`,
      and two method bindings by object, then by the bytes of the method
      pointer through `compare_mem`. Otherwise the `mCallback` pointers are
      compared, so an unset callback is below a set one. */
  predicate Less(a: Binding, b: Binding) {
    if IsSet(a) && IsSet(b) then
      match a
      case Free(f) => if b.Free? then f < b.fn else true
      case Method(o, m) =>
        if b.Method? then
          if o != b.obj then o < b.obj else Memory.Compare(m, b.meth) < 0
        else
          o < FreeComp
    else
      !IsSet(a) && IsSet(b)
  }

  /** `operator()` and `Call`, as the calls they make: an unset callback makes
      none; a set one makes exactly one call, to its own target, with the
      argument it was given. */
  function Invoke<A>(b: Binding, arg: A): (calls: seq<Invocation<A>>)
    ensures |calls| == if IsSet(b) then 1 else 0
    ensures forall c | c in calls :: Target(c) == b && c.arg == arg
  {
    match b
    case Unset => []
    case Free(f) => [FreeCall(f, arg)]
    case Method(o, m) => [MethodCall(o, m, arg)]
  }

  /** The value `operator()` returns: what the target returns (given as
      `returned`), or `R()` (given as `zero`) for an unset callback. */
  function CallResult<A, R>(b: Binding, arg: A, returned: Invocation<A> -> R, zero: R): (r: R)
    ensures !IsSet(b) ==> r == zero
    ensures IsSet(b) ==> exists c :: c in Invoke(b, arg) && r == returned(c)
  {
    var calls := Invoke(b, arg);
    if calls == [] then zero else returned(calls[0])
  }

  /** Method bindings are equal exactly when object and method are; a free
      and a method binding are never equal; an unset callback equals only
      an unset one. */
  lemma EqualCases(a: Binding, b: Binding)
    ensures a.Free? && b.Free? ==> (Equal(a, b) <==> a.fn == b.fn)
    ensures a.Method? && b.Method? ==> (Equal(a, b) <==> a.obj == b.obj && a.meth == b.meth)
    ensures a.Free? && b.Method? ==> !Equal(a, b) && !Equal(b, a)
    ensures !IsSet(a) ==> (Equal(a, b) <==> !IsSet(b))
  {
  }

  /** An unset callback orders before every set one, free bindings by
      function address, every free binding before every method binding, and
      method bindings by object first, then by the bytes of the method. */
  lemma LessCases(a: Binding, b: Binding)
    ensures !IsSet(a) && IsSet(b) ==> Less(a, b) && !Less(b, a)
    ensures !IsSet(a) && !IsSet(b) ==> !Less(a, b)
    ensures a.Free? && b.Free? ==> (Less(a, b) <==> a.fn < b.fn)
    ensures a.Free? && b.Method? ==> Less(a, b) && !Less(b, a)
    ensures a.Method? && b.Method? && a.obj != b.obj ==> (Less(a, b) <==> a.obj < b.obj)
    ensures a.Method? && b.Method? && a.obj == b.obj ==> (Less(a, b) <==> Memory.Compare(a.meth, b.meth) == -1)
  {
    if a.Method? && b.Method? {
      Memory.CompareRange(a.meth, b.meth);
    }
  }

  /** `<` is irreflexive. */
  lemma LessIrreflexive(a: Binding)
    ensures !Less(a, a)
  {
    if a.Method? {
      Memory.CompareZeroIffEqual(a.meth, a.meth);
    }
  }

  /** `<` is asymmetric. */
  lemma LessAsymmetric(a: Binding, b: Binding)
    requires Less(a, b)
    ensures !Less(b, a)
  {
    if a.Method? && b.Method? && a.obj == b.obj {
      Memory.CompareAntisymmetric(a.meth, b.meth);
    }
  }

  /** `<` is transitive. */
  lemma LessTransitive(a: Binding, b: Binding, c: Binding)
    requires Less(a, b) && Less(b, c)
    ensures Less(a, c)
  {
    if a.Method? && b.Method? && c.Method? && a.obj == b.obj == c.obj {
      Memory.CompareTransitive(a.meth, b.meth, c.meth);
    }
  }

  /** Any two different callbacks are ordered one way or the other, so `<`
      is a strict total order and `Equal` is its equivalence. */
  lemma LessTotal(a: Binding, b: Binding)
    requires !Equal(a, b)
    ensures Less(a, b) || Less(b, a)
  {
    if a.Method? && b.Method? && a.obj == b.obj {
      Memory.CompareZeroIffEqual(a.meth, b.meth);
      Memory.CompareAntisymmetric(a.meth, b.meth);
    }
  }

  /** The object of `Callback1<R, T0>`, with `A` for the argument type `T0`.
      `binding` stands for the pair `mMem`/`mCallback`. */
  class Callback<A> {
    var binding: Binding

    /** `Callback1()`: a callback that can be set later. */
    constructor ()
      ensures binding == Unset && !IsSet(binding)
    {
      binding := Unset;
    }

    /** `Callback1(function)`. */
    constructor FromFunction(fn: Address)
      ensures binding == Free(fn) && IsSet(binding)
    {
      binding := Free(fn);
    }

    /** `Callback1(object, function)`. */
    constructor FromMethod(obj: Address, meth: MethodPtr)
      ensures binding == Method(obj, meth) && IsSet(binding)
    {
      binding := Method(obj, meth);
    }

    /** The copy constructor: the copy equals its source and calls the same target. */
    constructor Copy(c: Callback<A>)
      ensures Equal(binding, c.binding)
      ensures forall arg: A :: Invoke(binding, arg) == Invoke(c.binding, arg)
    {
      binding := c.binding;
    }

    /** `operator=`: afterwards this callback equals `rhs` and calls the same target. */
    method Assign(rhs: Callback<A>)
      modifies this
      ensures binding == old(rhs.binding) && Equal(binding, old(rhs.binding))
    {
      binding := rhs.binding;
    }

    /** `Reset(object, function)`: invoking afterwards calls that method on that object. */
    method ResetMethod(obj: Address, meth: MethodPtr)
      modifies this
      ensures binding == Method(obj, meth) && IsSet(binding)
      ensures forall arg: A :: Invoke(binding, arg) == [MethodCall(obj, meth, arg)]
    {
      binding := Method(obj, meth);
    }

    /** `Reset(function)`. */
    method ResetFunction(fn: Address)
      modifies this
      ensures binding == Free(fn) && IsSet(binding)
      ensures forall arg: A :: Invoke(binding, arg) == [FreeCall(fn, arg)]
    {
      binding := Free(fn);
    }

    /** `Reset()`: afterwards the callback is unset and invoking it calls nothing. */
    method Reset()
      modifies this
      ensures binding == Unset && !IsSet(binding)
      ensures forall arg: A :: Invoke(binding, arg) == []
    {
      binding := Unset;
    }
  }
}
