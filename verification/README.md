# han::maybe in Dafny

A model of `han::maybe<T>` from the hanlib repository: a value type that holds
either nothing or exactly one `T`. The class keeps its contents in a single
`std::optional<T>` member and offers empty construction (by default or from
`std::nullopt`), explicit construction from a value, defaulted copy and move
construction, and one total extractor, `or_else(alt)`, which returns the held
value if there is one and `alt` otherwise.

The model has three modules:

- `StdOptional` (`optional.dfy`): the part of C++17 `std::optional<T>`
  (ISO/IEC 14882:2017, clause [optional]) the class uses — the disengaged and
  engaged states, the default, value and copy/move constructors, the `bool`
  conversion and `operator*`, whose precondition (a value is contained) is the
  one the standard states.
- `Han` (`maybe.dfy`): `datatype Maybe<T> = Maybe(data: Optional<T>)`, mirroring
  the class's one data member, its constructors as functions, `OrElse`, and the
  abstract two-state view `State<T> = Empty | Holds(value)` that most
  contracts are stated against. `or_else` is implemented, as in the header,
  through the optional's `bool` conversion and `operator*`; its contract is
  stated on the abstract state.
- `Tests` (`tests.dfy`): the `helper(present, value)` function that both test
  files use to build their inputs, and the two checks of the basic test file.

Values are immutable, so "the receiver is unchanged" (`or_else` is `const`)
and "the source of a copy is not modified" hold by construction; what is
proved is that repeated calls agree and that a copy cannot be told apart from
its source.

## Model

| member | source | states |
|---|---|---|
| Han.Default | include/han/maybe.hh:11 | A default-constructed maybe is in the empty state. |
| Han.FromNullopt | include/han/maybe.hh:12 | Constructing from `std::nullopt` gives exactly the default-constructed (empty) maybe. |
| Han.Of | include/han/maybe.hh:13 | Explicit construction from `v` gives the state that holds `v`. |
| Han.Copy | include/han/maybe.hh:14-15 | The copy is empty if and only if the source is, and otherwise holds the source's value. |
| Han.OrElse | include/han/maybe.hh:17-20 | On an empty maybe the result is `alt`; on a maybe holding `v` it is `v`. |
| Han.StateOf | include/han/maybe.hh:8 | The maybe is in the holding state exactly when its optional member contains a value, and then the held value is the contained one. |
| StdOptional.Make | include/han/maybe.hh:11-12 | The optional's default constructor ([optional.ctor]) yields an optional that contains no value; both empty maybe constructors leave `data` this way. |
| StdOptional.MakeWith | include/han/maybe.hh:13 | Initialising the optional from a `T` ([optional.ctor]) yields one that contains a value, and `*data` is that value. |
| StdOptional.CopyOf | include/han/maybe.hh:14-15 | The optional's copy/move constructor ([optional.ctor]) contains a value exactly when its source does, and then `*` gives the source's value. |
| StdOptional.Deref | include/han/maybe.hh:18 | `*data` ([optional.observe]) is only allowed when a value is contained, and returns that contained value. |
| Han.OrElseIsOneOf | include/han/maybe.hh:17-20 | For every receiver and `alt`, `or_else(alt)` returns `alt` or the held value and nothing else. |
| Han.DefaultOrElse | include/han/maybe.hh:17-19 | `or_else(alt)` on a default-constructed maybe returns `alt`. |
| Han.OfOrElse | include/han/maybe.hh:17-18 | `or_else(alt)` on a maybe built from `v` returns `v` for every `alt`. |
| Han.StateRoundTrip | include/han/maybe.hh:8 | Every maybe is exactly the empty one or one built from its value: abstract state and stored optional determine each other. |
| Han.CopyIsIndistinguishable | include/han/maybe.hh:14 | A copy equals its source and answers every `or_else` as the source does. |
| Han.OrElseChoosesHeldIffPresent | include/han/maybe.hh:17-20 | For two different alternatives `a` and `b`, `or_else(a)` and `or_else(b)` agree if and only if a value is held, and each returns its own alternative if and only if the maybe is empty. |
| Han.OrElseRepeated | include/han/maybe.hh:17-20 | Calling `or_else` on one receiver with a sequence of alternatives yields the held value every time, or the alternatives themselves when empty. |
| StdOptional.CopyOfIsIdentity | include/han/maybe.hh:14 | The optional copy the defaulted copy constructor performs reproduces its source exactly. |
| Tests.Helper | test.cc:4-8 | `helper(present, v)` holds `v` when `present` is true and is empty otherwise. |
| Tests.OrElseValuePresent | test.cc:15 | `helper(true, 5).or_else(10) == 5`. |
| Tests.OrElseValueMissing | test.cc:18 | `helper(false, 5).or_else(10) == 10`. |

## Left out

- Value categories, perfect forwarding, `noexcept` and `constexpr` (include/han/maybe.hh:11-15): Dafny values have no identity, so copying and moving a `T` are both modelled as producing an equal value.
- Han.Copy: only the newly constructed maybe is described. After a move (include/han/maybe.hh:15) the source keeps its state, because the optional move constructor ([optional.ctor]) leaves `bool(rhs)` unchanged. A moved-from holding maybe therefore still answers `or_else` with its held, moved-from `T`, never with `alt`. What that `T` then contains depends on `T`'s own move constructor, so the model says nothing about it.
- The deduction guide (include/han/maybe.hh:23): a compile-time typing rule, which in Dafny is ordinary type inference of `Of`'s type argument.
- The copy-counting harness of test-copies.cc (the `mocker` class and its expected copy logs): it exercises `then_do`, `or_else_do`, `then_maybe` and rvalue-qualified `or_else` overloads that the modelled header does not declare, and copy counts have no meaning for immutable values.
- The boost::ut test framework, test names and the `main` drivers of both test files.
