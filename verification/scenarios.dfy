/**
  The repository's test scenarios, recast as facts about lookups on the
  document {"foo": null, "baz": ["1", 2, null, ["10", 20], true, {"a": "b"}]}.
 */
module Scenarios {
  import opened Options
  import opened Json
  import opened Evaluate
  import opened Access
  import Selectors

  /** The IEEE-754 bit patterns of 0.0, 2.0, 10.0 and 20.0. */
  const Zero := Float64(0)
  const Two := Float64(0x4000_0000_0000_0000)
  const Ten := Float64(0x4024_0000_0000_0000)
  const Twenty := Float64(0x4034_0000_0000_0000)

  const Inner := Obj([("a", Str("b"))])
  const Baz := [Str("1"), Num(Two), Null, Arr([Str("10"), Num(Twenty)]), Bool(true), Inner]
  const Doc := Obj([("foo", Null), ("baz", Arr(Baz))])

  const SelectAll := (i: int, v: Node) => true
  const KeyContainsA := (k: string, v: Node) => 'a' in k

  /** Looking up "baz" hands the rest of the path to the array. */
  lemma BazStep(rest: seq<Selector>)
    ensures Eval(Doc, [Key("baz")] + rest) == Eval(Arr(Baz), rest)
  {
    Selectors.KeySelector(Doc, "baz", rest);
    assert Doc.members[1].0 == "baz";
  }

  /** Path ["baz", i] finds element i of the array, and any i outside
      [0, 6) is not found. */
  lemma BazElement(i: int)
    ensures 0 <= i < |Baz| ==> Eval(Doc, [Key("baz"), Index(i)]) == Val(Baz[i])
    ensures !(0 <= i < |Baz|) ==> Eval(Doc, [Key("baz"), Index(i)]) == NotFound
  {
    BazStep([Index(i)]);
    assert [Key("baz"), Index(i)] == [Key("baz")] + [Index(i)];
    Selectors.IndexSelector(Arr(Baz), i, []);
    assert [Index(i)] == [Index(i)] + [];
  }

  /** Path ["baz", "baz"] asks an array for a key. */
  lemma BazThenKey()
    ensures Eval(Doc, [Key("baz"), Key("baz")]) == TypeMismatch
  {
    BazStep([Key("baz")]);
    assert [Key("baz"), Key("baz")] == [Key("baz")] + [Key("baz")];
    Selectors.KeySelector(Arr(Baz), "baz", []);
    assert [Key("baz")] == [Key("baz")] + [];
  }

  /** A found object, a found null (distinct from not found), and a missing
      key. */
  lemma BasicLookups()
    ensures Get(Doc, [Key("baz"), Index(5)], Null) == Reply(Val(Inner), None)
    ensures Get(Doc, [Key("baz"), Index(2)], Num(Zero)) == Reply(Val(Null), None)
    ensures Get(Doc, [Key("bar"), Index(3), Index(1)], Null) == Reply(Val(Null), Some(NotFoundError))
  {
    BazElement(5);
    BazElement(2);
    Selectors.KeySelector(Doc, "bar", [Index(3), Index(1)]);
    assert [Key("bar"), Index(3), Index(1)] == [Key("bar")] + [Index(3), Index(1)];
  }

  lemma StringLookups()
    ensures GetString(Doc, [Key("baz"), Index(0)], "") == Reply("1", None)
    ensures GetString(Doc, [Key("baz"), Index(1)], "") == Reply("", Some(UnexpectedTypeError))
    ensures GetString(Doc, [Index(1)], "") == Reply("", Some(MismatchedPathTypeError))
  {
    BazElement(0);
    BazElement(1);
    Selectors.IndexSelector(Doc, 1, []);
    assert [Index(1)] == [Index(1)] + [];
  }

  lemma NumberLookups()
    ensures GetNumber(Doc, [Key("baz"), Index(1)], Ten) == Reply(Two, None)
    ensures GetNumber(Doc, [Key("baz"), Index(0)], Ten) == Reply(Ten, Some(UnexpectedTypeError))
    ensures GetNumber(Doc, [Key("baz"), Index(10)], Zero) == Reply(Zero, Some(NotFoundError))
  {
    BazElement(1);
    BazElement(0);
    BazElement(10);
  }

  lemma BoolLookups()
    ensures GetBool(Doc, [Key("baz"), Index(4)], false) == Reply(true, None)
    ensures GetBool(Doc, [Key("baz"), Index(3)], false) == Reply(false, Some(UnexpectedTypeError))
    ensures GetBool(Doc, [Key("baz"), Key("baz")], false) == Reply(false, Some(MismatchedPathTypeError))
  {
    BazElement(4);
    BazElement(3);
    BazThenKey();
  }

  /** Selecting every element and then index 0 keeps only the nested array's
      first entry; every other element is a type mismatch and is dropped. */
  lemma IndexPredicateLookups()
    ensures Get(Doc, [Key("baz"), IdxPred(SelectAll), Index(0)], Null) == Reply(Agg([Val(Str("10"))]), None)
  {
    var path := [IdxPred(SelectAll), Index(0)];
    BazStep(path);
    assert [Key("baz"), IdxPred(SelectAll), Index(0)] == [Key("baz")] + path;
    SelectAllThenFirst();
  }

  lemma SelectAllThenFirst()
    ensures Eval(Arr(Baz), [IdxPred(SelectAll), Index(0)]) == Agg([Val(Str("10"))])
  {
    Selectors.IndexPredicateGathers(Baz, SelectAll, [Index(0)]);
    assert [IdxPred(SelectAll), Index(0)] == [IdxPred(SelectAll)] + [Index(0)];
    FirstOfEachElement();
    OnlyTenSurvives();
  }

  /** Aggregating five type mismatches around one value keeps the value. */
  lemma OnlyTenSurvives()
    ensures
      var tm := Some(TypeMismatch);
      Gather([tm, tm, tm, Some(Val(Str("10"))), tm, tm]) == Agg([Val(Str("10"))])
  {
    OnlyValueSurvives(Val(Str("10")));
  }

  lemma OnlyValueSurvives(x: Outcome)
    requires x.Val?
    ensures
      var tm := Some(TypeMismatch);
      Gather([tm, tm, tm, Some(x), tm, tm]) == Agg([x])
  {
    var tm := Some(TypeMismatch);
    var s3 := [tm, tm, tm];
    GatherStep([], tm);
    assert [] + [tm] == [tm];
    GatherStep([tm], tm);
    assert [tm] + [tm] == [tm, tm];
    GatherStep([tm, tm], tm);
    assert [tm, tm] + [tm] == s3;
    assert Gather(s3) == Agg([]);
    GatherStep(s3, Some(x));
    var s4 := s3 + [Some(x)];
    assert Gather(s4) == Agg([x]);
    GatherStep(s4, tm);
    var s5 := s4 + [tm];
    assert Gather(s5) == Agg([x]);
    GatherStep(s5, tm);
    assert s5 + [tm] == [tm, tm, tm, Some(x), tm, tm];
  }

  /** Index 0 of each element of "baz": only the nested array has one. */
  lemma FirstOfEachElement()
    ensures IndexSubs(Baz, SelectAll, [Index(0)])
         == [Some(TypeMismatch), Some(TypeMismatch), Some(TypeMismatch), Some(Val(Str("10"))),
             Some(TypeMismatch), Some(TypeMismatch)]
  {
    Selectors.IndexPredicateGathers(Baz, SelectAll, [Index(0)]);
    Selectors.IndexSelector(Baz[3], 0, []);
    assert [Index(0)] == [Index(0)] + [];
    assert Baz[3].elems[0] == Str("10");
  }

  /** An unknown selector below an index predicate fails the whole lookup. */
  lemma IndexPredicateUnknown()
    ensures Get(Doc, [Key("baz"), IdxPred(SelectAll), Other], Null).err == Some(UnknownPathTypeError)
  {
    var path' := [IdxPred(SelectAll), Other];
    BazStep(path');
    assert [Key("baz"), IdxPred(SelectAll), Other] == [Key("baz")] + path';
    Selectors.IndexPredicateGathers(Baz, SelectAll, [Other]);
    assert path' == [IdxPred(SelectAll)] + [Other];
    assert IndexSubs(Baz, SelectAll, [Other])[0] == Some(Unknown);
  }

  /** One step of predicate aggregation. */
  lemma GatherStep(subs: seq<Option<Outcome>>, last: Option<Outcome>)
    ensures Gather(subs + [last]) ==
      match last
      case None => Gather(subs)
      case Some(o) =>
        if Gather(subs).Unknown? || o.Unknown? then Unknown
        else if o.Skipped() then Gather(subs)
        else Agg(Gather(subs).items + [o])
  {
    assert (subs + [last])[..|subs|] == subs;
  }

  /** Of the two keys only "baz" contains an 'a'; index 0 of its array is
      the string "1". */
  lemma KeyPredicateLookup()
    ensures Get(Doc, [KeyPred(KeyContainsA), Index(0)], Null) == Reply(Agg([Val(Str("1"))]), None)
  {
    var members := Doc.members;
    assert 'a' !in "foo" && 'a' in "baz";
    Selectors.KeyPredicateGathers(members, KeyContainsA, [Index(0)]);
    assert [KeyPred(KeyContainsA), Index(0)] == [KeyPred(KeyContainsA)] + [Index(0)];
    var subs := MemberSubs(members, KeyContainsA, [Index(0)]);
    assert members[1].1 == Arr(Baz);
    Selectors.IndexSelector(Arr(Baz), 0, []);
    assert [Index(0)] == [Index(0)] + [];
    assert subs[0] == None;
    assert subs[1] == Some(Eval(Arr(Baz), [Index(0)])) == Some(Val(Str("1")));
    assert subs == [None, Some(Val(Str("1")))];
    var none: seq<Option<Outcome>> := [];
    GatherStep(none, None);
    assert none + [None] == [None];
    assert Gather([None]) == Agg([]);
    GatherStep([None], Some(Val(Str("1"))));
    assert [None] + [Some(Val(Str("1")))] == subs;
    assert Gather(subs) == Agg([Val(Str("1"))]);
  }

  /** Key "a" on the selected array is a type mismatch, which the aggregate
      drops: an empty aggregate and no error. */
  lemma KeyPredicateDropsMismatch()
    ensures Get(Doc, [KeyPred(KeyContainsA), Key("a")], Null) == Reply(Agg([]), None)
  {
    var members := Doc.members;
    assert 'a' !in "foo" && 'a' in "baz";
    Selectors.KeyPredicateGathers(members, KeyContainsA, [Key("a")]);
    assert [KeyPred(KeyContainsA), Key("a")] == [KeyPred(KeyContainsA)] + [Key("a")];
    var subs := MemberSubs(members, KeyContainsA, [Key("a")]);
    assert subs == [None, Some(TypeMismatch)];
    var none: seq<Option<Outcome>> := [];
    GatherStep(none, None);
    assert none + [None] == [None];
    GatherStep([None], Some(TypeMismatch));
    assert [None] + [Some(TypeMismatch)] == subs;
  }

  /** An unknown selector below a key predicate fails the whole lookup. */
  lemma KeyPredicateUnknown()
    ensures Get(Doc, [KeyPred(KeyContainsA), Other], Null).err == Some(UnknownPathTypeError)
  {
    var members := Doc.members;
    assert 'a' in "baz";
    Selectors.KeyPredicateGathers(members, KeyContainsA, [Other]);
    assert [KeyPred(KeyContainsA), Other] == [KeyPred(KeyContainsA)] + [Other];
    assert MemberSubs(members, KeyContainsA, [Other])[1] == Some(Unknown);
  }

  /** A slice keeps the type mismatches of elements 1 and 2 inside a
      successful aggregate. */
  lemma SliceLookup()
    ensures Get(Doc, [Key("baz"), Slice(1, 4), Index(1)], Null)
         == Reply(Agg([TypeMismatch, TypeMismatch, Val(Num(Twenty))]), None)
  {
    var path := [Slice(1, 4), Index(1)];
    BazStep(path);
    assert [Key("baz"), Slice(1, 4), Index(1)] == [Key("baz")] + path;
    Selectors.SliceSelection(Baz, 1, 4, [Index(1)]);
    assert path == [Slice(1, 4)] + [Index(1)];
    var items := Eval(Arr(Baz), path).items;
    assert items[0] == Eval(Baz[1], [Index(1)]) == TypeMismatch;
    assert items[1] == Eval(Baz[2], [Index(1)]) == TypeMismatch;
    assert items[2] == Eval(Baz[3], [Index(1)]) == Val(Num(Twenty));
    assert items == [TypeMismatch, TypeMismatch, Val(Num(Twenty))];
  }

  /** A floating-point selector is unknown: the default comes back with an
      error. */
  lemma UnknownSelectorLookup()
    ensures Get(Doc, [Key("baz"), Other], Null) == Reply(Val(Null), Some(UnknownPathTypeError))
  {
    BazStep([Other]);
    assert [Key("baz"), Other] == [Key("baz")] + [Other];
  }
}
