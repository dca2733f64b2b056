# jsonpath in Dafny

A model of the path evaluator of the Go package `jsonpath`. The package
walks a JSON document that `encoding/json` has already decoded. The walk
follows a path: a list of selectors, each one of the following:
- a key, which picks an object member;
- an integer index, which picks an array element;
- an index predicate `func(int, interface{}) bool` or a key predicate
  `func(string, interface{}) bool`, which filter an array or object;
- a `Slice{Start, Stop}`, which cuts a window out of an array.

`Get` and the typed getters `GetString`, `GetNumber` and `GetBool` report
the result or an error paired with the caller's default.

Modules:
- `Options`: the `Option` type.
- `Json`: the decoded tree `Node`: null, bool, number, string, array, or
  object as a sequence of members. It also has the first-match key search
  `FindKey` and the `DistinctKeys` invariant that a Go map keeps.
- `Evaluate`: selectors, outcomes and the functional evaluator `Eval`.
  - An outcome is one of: a value, an aggregate, or one of the three
    sentinels (not found, path-type mismatch, unknown path type).
  - The sub-outcomes of the elements a selector picks are a sequence of
    `Option<Outcome>`, where `None` means "not selected".
  - Predicate selectors aggregate with `Gather`. It drops not-found and
    mismatch sub-outcomes and stops at the first unknown one.
  - Slices aggregate with `Present`, which keeps every selected
    sub-outcome, sentinels included.
- `Walker`: `RecursiveGet`, a loop-for-loop rendition of `recursiveGet`,
  proved equal to `Eval`.
- `Selectors`: what each selector kind yields, stated independently of
  `Eval`'s case split: contents, order, counts and windows.
- `MemberOrder`: Go visits map members in an unspecified order. These
  lemmas reorder the members of the object being iterated, with its member
  values unchanged. They show that this does not change the outcome of a
  key lookup, and that for a key predicate it changes only the order of the
  aggregate's entries. Objects nested inside the member values keep their
  fixed order.
- `Access`: `Get` and the typed getters.
- `Scenarios`: the repository's own test lookups, stated as lemmas about
  the test document.

## Model

| member | source | states |
|---|---|---|
| Json.FindKey | jsonpath.go:40-45 | the member search yields the first member whose key matches; none iff no member has the key |
| Evaluate.Eval | jsonpath.go:16-118 | a value outcome needs a path made only of keys and indices; aggregates and unknown outcomes need some other selector; not-found and mismatch surface at the top only through a leading key or index |
| Evaluate.Gather | jsonpath.go:66-79 | a predicate aggregate is a list or an unknown outcome. It is unknown iff some selected element's sub-outcome is unknown. Its entries are never sentinels |
| Evaluate.Present | jsonpath.go:104-112 | a slice aggregate has at most one entry per element. Its contents are stated by Selectors.PresentWindow and Selectors.SliceSelection |
| Evaluate.GatherEnumerates | jsonpath.go:67-77 | a predicate aggregate lists, in order, exactly the selected sub-outcomes that are neither not-found nor mismatch |
| Walker.RecursiveGet | jsonpath.go:16-118 | the looping walk computes exactly the functional evaluator's outcome, for every tree and path |
| Walker.GatherByIndex | jsonpath.go:63-80 | the index-predicate loop computes the predicate aggregate of the array's elements |
| Walker.GatherByKey | jsonpath.go:82-99 | the key-predicate loop computes the predicate aggregate of the object's members |
| Walker.CollectSlice | jsonpath.go:101-113 | the slice loop collects the sub-outcomes of the elements in the window, unfiltered |
| Selectors.EmptyPath | jsonpath.go:18-33 | an empty path yields the node itself; arrays and objects are returned as they are |
| Selectors.KeySelector | jsonpath.go:37-48 | a key on a non-object is a mismatch; a missing key is not found; otherwise the walk continues in the member carrying the key |
| Selectors.IndexSelector | jsonpath.go:50-61 | an index on a non-array is a mismatch; an index outside the array (negative included) is not found; otherwise the walk continues in that element |
| Selectors.WrongContainerIsUnknown | jsonpath.go:63-116 | a predicate or slice applied to the wrong kind of container, or a selector of an unrecognised shape, yields unknown path type |
| Selectors.IndexPredicateShortCircuit | jsonpath.go:71-74 | an index predicate never yields not-found or mismatch. It yields unknown iff some selected element's sub-outcome is unknown |
| Selectors.IndexPredicateSelection | jsonpath.go:66-79 | an index-predicate aggregate holds, in increasing index order, the sub-outcomes of exactly the selected elements that are not skipped |
| Selectors.KeyPredicateShortCircuit | jsonpath.go:90-93 | a key predicate never yields not-found or mismatch. It yields unknown iff some selected member's sub-outcome is unknown |
| Selectors.KeyPredicateSelection | jsonpath.go:85-98 | an outcome is an entry of a key-predicate aggregate iff some selected member yields it and it is not a skipped failure |
| Selectors.KeyPredicateCount | jsonpath.go:85-98 | a key-predicate aggregate has one entry per selected member whose sub-outcome is kept |
| Selectors.EnumeratesContents | jsonpath.go:66-79 | an order-preserving enumeration of kept sub-outcomes has the kept ones as its contents, and as many entries as there are kept positions |
| Selectors.PresentWindow | jsonpath.go:107-111 | when exactly a contiguous window is selected, the slice aggregate is that window's sub-outcomes, in order |
| Selectors.SliceSelection | jsonpath.go:101-113 | a slice yields the sub-outcomes of elements max(Start,0) up to min(Stop,len)-1, in order, sentinels included; an empty list when the window is empty |
| Selectors.SliceWindow | jsonpath.go:105-111 | the bounds test `start <= i && i < stop` over the array's positions selects the clamped window |
| Selectors.AggregationAsymmetry | jsonpath.go:71-72 | a not-found or mismatch sub-outcome stays in a slice aggregate but is dropped by an index predicate selecting the same element |
| MemberOrder.MemberSubsPermutation | jsonpath.go:86 | visiting the members in another order permutes their sub-outcomes |
| MemberOrder.GatherCount | jsonpath.go:70-76 | a predicate aggregate holds each non-skipped outcome as often as a selected element yields it, and no skipped one |
| MemberOrder.GatherPermutation | jsonpath.go:66-79 | permuting the sub-outcomes changes neither whether the aggregate is unknown nor its entries counted with multiplicity |
| MemberOrder.KeyPredicateOrderIndependent | jsonpath.go:82-99 | reordering the iterated object's members, values unchanged, keeps whether a key predicate is unknown and its entries counted with multiplicity |
| MemberOrder.KeyLookupOrderIndependent | jsonpath.go:37-48 | reordering the members of an object with distinct keys, values unchanged, leaves a key lookup's outcome unchanged |
| MemberOrder.KeyPredicateMultiplicity | jsonpath.go:85-98 | a key-predicate aggregate holds each outcome once per selected member yielding it, and never a not-found or mismatch |
| Access.SentinelError | jsonpath.go:122-129 | every sentinel is reported as an error other than "unexpected type" |
| Access.Get | jsonpath.go:120-131 | fails with the default iff the walk yields a sentinel, naming which sentinel; otherwise returns the walk's value or aggregate, with no error, even for a found null |
| Access.GetString | jsonpath.go:133-143 | succeeds iff the path leads to a string and returns it; otherwise the default, with Get's error or "unexpected type" |
| Access.GetNumber | jsonpath.go:145-155 | succeeds iff the path leads to a number and returns it; otherwise the default, with Get's error or "unexpected type" |
| Access.GetBool | jsonpath.go:157-167 | succeeds iff the path leads to a boolean and returns it; otherwise the default, with Get's error or "unexpected type" |
| Scenarios.BazElement | jsonpath_test.go:21-32 | in the test document, `baz` then an index yields that element, or not-found past the end |
| Scenarios.BazThenKey | jsonpath_test.go:78-81 | `baz` then a key is a path-type mismatch |
| Scenarios.BasicLookups | jsonpath_test.go:20-36 | `baz,5` finds the inner object; `baz,2` finds null with no error; `bar,3,1` is not found |
| Scenarios.StringLookups | jsonpath_test.go:39-51 | `baz,0` reads "1"; `baz,1` is an unexpected type; a top-level index on the object is a mismatch |
| Scenarios.NumberLookups | jsonpath_test.go:54-66 | `baz,1` reads 2.0; `baz,0` is an unexpected type and gives the default; `baz,10` is not found |
| Scenarios.BoolLookups | jsonpath_test.go:69-81 | `baz,4` reads true; `baz,3` is an unexpected type; `baz,baz` is a mismatch |
| Scenarios.IndexPredicateLookups | jsonpath_test.go:85-89 | selecting every element of `baz` and then index 0 keeps only the inner array's first element, dropping the five type mismatches |
| Scenarios.SelectAllThenFirst | jsonpath_test.go:86 | the same, at the level of the array |
| Scenarios.OnlyValueSurvives | jsonpath_test.go:86 | a predicate aggregate of skipped outcomes around one value keeps just that value |
| Scenarios.FirstOfEachElement | jsonpath_test.go:86 | the sub-outcomes of index 0 on each element of `baz` |
| Scenarios.IndexPredicateUnknown | jsonpath_test.go:91-94 | an unrecognised selector below an index predicate makes the lookup fail with unknown path type |
| Scenarios.KeyPredicateLookup | jsonpath_test.go:96-100 | keys containing "a" then index 0 yields the list holding "1" |
| Scenarios.KeyPredicateDropsMismatch | jsonpath_test.go:102-105 | keys containing "a" then key "a" succeeds with an empty list, because the array's mismatch is dropped |
| Scenarios.KeyPredicateUnknown | jsonpath_test.go:107-110 | an unrecognised selector below a key predicate fails with unknown path type |
| Scenarios.SliceLookup | jsonpath_test.go:113-121 | `baz`, slice 1..4, index 1 succeeds with the list of mismatch, mismatch and 20 |
| Scenarios.UnknownSelectorLookup | jsonpath_test.go:123-131 | a floating-point selector fails with unknown path type and the default |

## Left out

- DecodeString, DecodeReader, Read, ReadString, ReadNumber and ReadBool
  (jsonpath.go:169-210) are left out. They parse JSON text with
  `encoding/json` and then call the lookups modelled here. Parsing is I/O
  and library code, so every operation starts from a decoded `Node`. One
  consequence is not modelled: on a decode error, `Read` returns nil rather
  than the caller's default.
- TestWrongJson (jsonpath_test.go:133-) is left out. It exercises the
  decoder only.
- Numbers are opaque IEEE-754 bit patterns (`Float64`). No arithmetic is
  done on them, and equal bits stand for equal numbers. The distinction
  between NaN and signed zero is not modelled.
- Error values are modelled as an enumeration. `Message()` gives the text
  each one carries. Go's `fmt.Errorf` wrapping is not modelled.
- Go ranges over a map in an unspecified, randomised order. The model
  fixes one order, the member sequence. `MemberOrder` proves that
  reordering the members of the object being iterated does not change a
  key lookup, and changes a key predicate only in the order of its
  entries.
- MemberOrder.KeyLookupOrderIndependent and
  MemberOrder.KeyPredicateOrderIndependent: these leave the member values
  unchanged. Go also randomises the order of every nested map. When a key
  predicate runs inside a nested object, that changes the order of the
  nested aggregate's entries, and so the value the outer lookup returns.
  Equivalence of documents up to member order at every depth is not
  modelled.
- Go's empty-path branch can meet a value that is not a JSON value, and
  then falls through to `path[0]` on an empty path. `Node` holds only the
  six JSON kinds, so that case cannot occur here.
- Predicates are total, pure functions. A Go predicate could panic or have
  side effects, and that is not modelled.
- `Other` stands for every selector value of an unrecognised Go type (a
  float, a struct, a predicate of another signature).
- Get: the default is a `Node` rather than an arbitrary Go value. The typed
  getters pass null, as the Go code passes nil.
- Evaluate.Present: its contract states only that the result is no longer
  than the input. What a slice aggregate contains is stated by
  `Selectors.PresentWindow`, `Selectors.SliceWindow` and
  `Selectors.SliceSelection`.
- Evaluate.Eval: its contract classifies the outcome by the shape of the
  path. Which outcome each selector yields is stated per selector in
  `Selectors` and by `Walker.RecursiveGet`.
