/**
 The part of C++17 `std::optional<T>` (ISO/IEC 14882:2017, clause [optional])
 that `han::maybe` is built on: the disengaged state, the engaged state, the
 default, value and copy/move constructors, the contextual conversion to
 `bool` and `operator*`. The storage layout of the real class is not modelled.
 */
module StdOptional {

  /** `std::nullopt_t`: a tag type whose one value is `std::nullopt`. */
  datatype NulloptT = Nullopt

  /** An optional contains either no value or exactly one `T`. */
  datatype Optional<T> = Disengaged | Engaged(contained: T)

  /** `explicit operator bool` ([optional.observe]): true iff a value is contained. */
  predicate HasValue<T>(o: Optional<T>)
  {
    o.Engaged?
  }

  /** `operator*` ([optional.observe]): only defined when a value is contained. */
  function Deref<T>(o: Optional<T>): (v: T)
    requires HasValue(o)
    ensures o == Engaged(v)
  {
    o.contained
  }

  /** The default constructor ([optional.ctor]): the result contains no value. */
  function Make<T>(): (o: Optional<T>)
    ensures !HasValue(o)
  {
    Disengaged
  }

  /** The converting constructor from a `T` ([optional.ctor]): the result contains that value. */
  function MakeWith<T>(v: T): (o: Optional<T>)
    ensures HasValue(o) && Deref(o) == v
  {
    Engaged(v)
  }

  /**
   The copy and move constructors ([optional.ctor]): when `rhs` contains a
   value the new object is initialised from `*rhs`, otherwise it contains no
   value. Copying or moving a `T` is modelled as producing an equal `T`.
   */
  function CopyOf<T>(rhs: Optional<T>): (o: Optional<T>)
    ensures HasValue(o) <==> HasValue(rhs)
    ensures HasValue(rhs) ==> Deref(o) == Deref(rhs)
  {
    if HasValue(rhs) then MakeWith(Deref(rhs)) else Make()
  }

  /** A copy is indistinguishable from its source. */
  lemma CopyOfIsIdentity<T>(rhs: Optional<T>)
    ensures CopyOf(rhs) == rhs
  {
  }
}
