/**
 `han::maybe<T>`: a value type that holds either nothing or exactly one `T`,
 kept in a single `std::optional<T>` member. Its one operation is the total
 extractor `or_else`.
 */
module Han {
  import opened StdOptional

  /** The class has exactly one data member, the optional `data`. */
  datatype Maybe<T> = Maybe(data: Optional<T>)

  /** The two observable states of a maybe. */
  datatype State<T> = Empty | Holds(value: T)

  /** The observable state of `m`, read through the optional's `bool` conversion and `operator*`. */
  function StateOf<T>(m: Maybe<T>): (s: State<T>)
    ensures s.Holds? <==> HasValue(m.data)
    ensures s.Holds? ==> m.data == Engaged(s.value)
  {
    if HasValue(m.data) then Holds(Deref(m.data)) else Empty
  }

  /** The maybe a state stands for: the default-constructed one or one built from the value. */
  function FromState<T>(s: State<T>): Maybe<T>
  {
    match s
    case Empty => Default()
    case Holds(v) => Of(v)
  }

  /** `maybe()`: the defaulted constructor leaves `data` disengaged. */
  function Default<T>(): (m: Maybe<T>)
    ensures StateOf(m) == Empty
  {
    Maybe(Make())
  }

  /** `maybe(std::nullopt_t)`: an empty constructor body, so `data` is default-initialised. */
  function FromNullopt<T>(n: NulloptT): (m: Maybe<T>)
    ensures m == Default()
  {
    Maybe(Make())
  }

  /** `explicit maybe(T value)`: `data` is initialised from the value. */
  function Of<T>(value: T): (m: Maybe<T>)
    ensures StateOf(m) == Holds(value)
  {
    Maybe(MakeWith(value))
  }

  /**
   The defaulted copy and move constructors: `data` is copied (or moved) from
   `other.data`. The state `other` is left in after a move is not modelled.
   */
  function Copy<T>(other: Maybe<T>): (m: Maybe<T>)
    ensures StateOf(m).Empty? <==> StateOf(other).Empty?
    ensures StateOf(other).Holds? ==> StateOf(m).value == StateOf(other).value
  {
    Maybe(CopyOf(other.data))
  }

  /** `or_else(T alt) const`: the held value if there is one, `alt` otherwise. */
  function OrElse<T>(m: Maybe<T>, alt: T): (r: T)
    ensures match StateOf(m)
            case Empty => r == alt
            case Holds(v) => r == v
  {
    if HasValue(m.data) then Deref(m.data) else alt
  }

  /** A default-constructed maybe answers `or_else(alt)` with `alt`. */
  lemma DefaultOrElse<T>(alt: T)
    ensures OrElse(Default(), alt) == alt
  {
  }

  /** A maybe built from `v` answers `or_else(alt)` with `v`, whatever `alt` is. */
  lemma OfOrElse<T>(v: T, alt: T)
    ensures OrElse(Of(v), alt) == v
  {
  }

  /** Every maybe is in exactly one of the two states, and the state determines it. */
  lemma StateRoundTrip<T>(m: Maybe<T>, s: State<T>)
    ensures FromState(StateOf(m)) == m
    ensures StateOf(FromState(s)) == s
  {
  }

  /** A copy is equal to its source and answers every `or_else` the same way. */
  lemma CopyIsIndistinguishable<T>(m: Maybe<T>, alt: T)
    ensures Copy(m) == m
    ensures OrElse(Copy(m), alt) == OrElse(m, alt)
  {
    CopyOfIsIdentity(m.data);
  }

  /** `or_else` is total and returns either `alt` or the held value, nothing else. */
  lemma OrElseIsOneOf<T>(m: Maybe<T>, alt: T)
    ensures OrElse(m, alt) == alt || (StateOf(m).Holds? && OrElse(m, alt) == StateOf(m).value)
  {
  }

  /**
   For two different alternatives the answer of `or_else` ignores the
   alternative if and only if a value is held.
   */
  lemma OrElseChoosesHeldIffPresent<T>(m: Maybe<T>, a: T, b: T)
    requires a != b
    ensures StateOf(m).Holds? <==> OrElse(m, a) == OrElse(m, b)
    ensures StateOf(m).Empty? <==> (OrElse(m, a) == a && OrElse(m, b) == b)
  {
  }

  /**
   `or_else` is `const`: calling it once per alternative on the same receiver
   yields the held value every time, or each alternative in turn when empty.
   */
  method OrElseRepeated<T>(m: Maybe<T>, alts: seq<T>) returns (rs: seq<T>)
    ensures |rs| == |alts|
    ensures StateOf(m).Empty? ==> rs == alts
    ensures StateOf(m).Holds? ==> forall i | 0 <= i < |rs| :: rs[i] == StateOf(m).value
  {
    rs := [];
    var i := 0;
    while i < |alts|
      invariant i <= |alts|
      invariant |rs| == i
      invariant StateOf(m).Empty? ==> rs == alts[..i]
      invariant StateOf(m).Holds? ==> forall j | 0 <= j < i :: rs[j] == StateOf(m).value
    {
      rs := rs + [OrElse(m, alts[i])];
      i := i + 1;
    }
  }
}
