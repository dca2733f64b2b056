/**
  What each selector kind does, stated against the evaluator: the empty
  path, key and index lookup, predicate aggregation with its short-circuit,
  slice aggregation, and the asymmetry between type-mismatch and
  unknown-selector outcomes.
 */
module Selectors {
  import opened Options
  import opened Json
  import opened Evaluate

  function Max(a: int, b: int): int { if a < b then b else a }
  function Min(a: int, b: int): int { if a < b then a else b }

  /** The empty path returns the node itself, composite nodes included. */
  lemma EmptyPath(node: Node)
    ensures Eval(node, []) == Val(node)
    ensures Eval(node, []).node.Arr? <==> node.Arr?
    ensures Eval(node, []).node.Obj? <==> node.Obj?
  {
  }

  /** A key selector: type mismatch off an object, not found for a missing
      key, otherwise exactly the outcome of the rest of the path on the
      member carrying the key. */
  lemma KeySelector(node: Node, key: string, rest: seq<Selector>)
    ensures !node.Obj? ==> Eval(node, [Key(key)] + rest) == TypeMismatch
    ensures node.Obj? && (forall i :: 0 <= i < |node.members| ==> node.members[i].0 != key) ==>
              Eval(node, [Key(key)] + rest) == NotFound
    ensures node.Obj? && DistinctKeys(node.members) ==>
              forall j :: 0 <= j < |node.members| && node.members[j].0 == key ==>
                Eval(node, [Key(key)] + rest) == Eval(node.members[j].1, rest)
  {
    assert ([Key(key)] + rest)[1..] == rest;
    if node.Obj? && DistinctKeys(node.members) {
      forall j | 0 <= j < |node.members| && node.members[j].0 == key
        ensures Eval(node, [Key(key)] + rest) == Eval(node.members[j].1, rest)
      {
        FindKeyUnique(node.members, key, j);
      }
    }
  }

  /** An index selector: type mismatch off an array, not found for any index
      outside [0, length) including negative ones, otherwise exactly the
      outcome of the rest of the path on that element. */
  lemma IndexSelector(node: Node, index: int, rest: seq<Selector>)
    ensures !node.Arr? ==> Eval(node, [Index(index)] + rest) == TypeMismatch
    ensures node.Arr? && !(0 <= index < |node.elems|) ==> Eval(node, [Index(index)] + rest) == NotFound
    ensures node.Arr? && 0 <= index < |node.elems| ==>
              Eval(node, [Index(index)] + rest) == Eval(node.elems[index], rest)
  {
    assert ([Index(index)] + rest)[1..] == rest;
  }

  /** Predicate and slice selectors on the wrong kind of container, and
      unrecognised selectors, yield the unknown-selector outcome and never a
      type mismatch. */
  lemma WrongContainerIsUnknown(node: Node, sel: Selector, rest: seq<Selector>)
    requires
      || ((sel.IdxPred? || sel.Slice?) && !node.Arr?)
      || (sel.KeyPred? && !node.Obj?)
      || sel.Other?
    ensures Eval(node, [sel] + rest) == Unknown
  {
  }

  /** An index predicate on an array is never a top-level not-found or
      type-mismatch failure, and it is unknown exactly when some selected
      element's sub-outcome is unknown. */
  lemma {:induction false} IndexPredicateShortCircuit(elems: seq<Node>, test: (int, Node) -> bool, rest: seq<Selector>)
    ensures var r := Eval(Arr(elems), [IdxPred(test)] + rest);
      && (r.Unknown? <==> exists i :: 0 <= i < |elems| && test(i, elems[i]) && Eval(elems[i], rest).Unknown?)
      && (r.Agg? || r.Unknown?)
  {
    IndexPredicateGathers(elems, test, rest);
    var subs := IndexSubs(elems, test, rest);
    if exists i :: 0 <= i < |elems| && test(i, elems[i]) && Eval(elems[i], rest).Unknown? {
      var i :| 0 <= i < |elems| && test(i, elems[i]) && Eval(elems[i], rest).Unknown?;
      assert subs[i] == Some(Unknown);
    }
  }

  /** The positions an index-predicate aggregate draws its entries from:
      increasing, each selected by the predicate with the entry being that
      element's sub-outcome and not a skipped failure, and covering every
      selected element whose sub-outcome is not a skipped failure. */
  ghost predicate IndexSelection(items: seq<Outcome>, elems: seq<Node>, test: (int, Node) -> bool,
                                 rest: seq<Selector>, idx: seq<int>)
  {
    && |idx| == |items|
    && (forall j, j' :: 0 <= j < j' < |idx| ==> idx[j] < idx[j'])
    && (forall j :: 0 <= j < |idx| ==>
          && 0 <= idx[j] < |elems|
          && test(idx[j], elems[idx[j]])
          && items[j] == Eval(elems[idx[j]], rest)
          && !items[j].Skipped())
    && (forall i :: 0 <= i < |elems| && test(i, elems[i]) && !Eval(elems[i], rest).Skipped() ==> i in idx)
  }

  /** An index-predicate aggregate holds, in array order, the sub-outcomes of
      exactly those selected elements whose sub-outcome is not a not-found or
      type-mismatch failure. */
  lemma {:induction false} IndexPredicateSelection(elems: seq<Node>, test: (int, Node) -> bool, rest: seq<Selector>)
    ensures var r := Eval(Arr(elems), [IdxPred(test)] + rest);
      r.Agg? ==> exists idx: seq<int> :: IndexSelection(r.items, elems, test, rest, idx)
  {
    IndexPredicateGathers(elems, test, rest);
    var subs := IndexSubs(elems, test, rest);
    var r := Gather(subs);
    if r.Agg? {
      GatherEnumerates(subs);
      var idx := KeptIndices(subs);
      assert Enumerates(r.items, subs, idx);
      assert IndexSelection(r.items, elems, test, rest, idx);
    }
  }

  /** An index predicate on an array aggregates the elements' sub-outcomes. */
  lemma {:induction false} IndexPredicateGathers(elems: seq<Node>, test: (int, Node) -> bool, rest: seq<Selector>)
    ensures Eval(Arr(elems), [IdxPred(test)] + rest) == Gather(IndexSubs(elems, test, rest))
    ensures forall i :: 0 <= i < |elems| ==>
      IndexSubs(elems, test, rest)[i] == if test(i, elems[i]) then Some(Eval(elems[i], rest)) else None
  {
    assert ([IdxPred(test)] + rest)[1..] == rest;
  }

  /** A key predicate on an object is never a top-level not-found or
      type-mismatch failure, and it is unknown exactly when some selected
      member's sub-outcome is unknown. */
  lemma {:induction false} KeyPredicateShortCircuit(members: seq<(string, Node)>, test: (string, Node) -> bool, rest: seq<Selector>)
    ensures var r := Eval(Obj(members), [KeyPred(test)] + rest);
      && (r.Unknown? <==> SelectedMemberYields(members, test, rest, Unknown))
      && (r.Agg? || r.Unknown?)
  {
    KeyPredicateGathers(members, test, rest);
    var subs := MemberSubs(members, test, rest);
    if SelectedMemberYields(members, test, rest, Unknown) {
      var i :| 0 <= i < |members| && test(members[i].0, members[i].1) && Eval(members[i].1, rest) == Unknown;
      assert subs[i] == Some(Unknown);
    }
  }

  /** Some member selected by the key predicate has sub-outcome `o`. */
  ghost predicate SelectedMemberYields(members: seq<(string, Node)>, test: (string, Node) -> bool,
                                       rest: seq<Selector>, o: Outcome)
  {
    exists i :: 0 <= i < |members| && test(members[i].0, members[i].1) && Eval(members[i].1, rest) == o
  }

  /** A key-predicate aggregate, stated independently of the order of the
      members: it holds an entry exactly when that entry is the sub-outcome of
      some selected member and is not a skipped failure. */
  lemma {:induction false} KeyPredicateSelection(members: seq<(string, Node)>, test: (string, Node) -> bool, rest: seq<Selector>)
    ensures var r := Eval(Obj(members), [KeyPred(test)] + rest);
      r.Agg? ==> forall o :: o in r.items <==> !o.Skipped() && SelectedMemberYields(members, test, rest, o)
  {
    KeyPredicateGathers(members, test, rest);
    var subs := MemberSubs(members, test, rest);
    var r := Gather(subs);
    if r.Agg? {
      GatherEnumerates(subs);
      EnumeratesContents(r.items, subs, KeptIndices(subs));
      forall o: Outcome ensures Some(o) in subs <==> SelectedMemberYields(members, test, rest, o)
      {
        if Some(o) in subs {
          var i :| 0 <= i < |subs| && subs[i] == Some(o);
        }
        if SelectedMemberYields(members, test, rest, o) {
          var i :| 0 <= i < |members| && test(members[i].0, members[i].1) && Eval(members[i].1, rest) == o;
          assert subs[i] == Some(o);
        }
      }
    }
  }

  /** The positions of the members a key predicate selects and whose
      sub-outcome is not a skipped failure. */
  ghost function KeptMembers(members: seq<(string, Node)>, test: (string, Node) -> bool, rest: seq<Selector>): set<int>
  {
    set i | 0 <= i < |members| && test(members[i].0, members[i].1) && !Eval(members[i].1, rest).Skipped()
  }

  /** A key-predicate aggregate has one entry per selected member whose
      sub-outcome is not a skipped failure. */
  lemma {:induction false} KeyPredicateCount(members: seq<(string, Node)>, test: (string, Node) -> bool, rest: seq<Selector>)
    ensures var r := Eval(Obj(members), [KeyPred(test)] + rest);
      r.Agg? ==> |r.items| == |KeptMembers(members, test, rest)|
  {
    var subs := MemberSubs(members, test, rest);
    var r := Eval(Obj(members), [KeyPred(test)] + rest);
    KeyPredicateGathers(members, test, rest);
    if r.Agg? {
      GatherEnumerates(subs);
      EnumeratesContents(r.items, subs, KeptIndices(subs));
      var kept := KeptMembers(members, test, rest);
      var keptSubs := set i | 0 <= i < |subs| && subs[i].Some? && !subs[i].value.Skipped();
      forall i: int ensures i in kept <==> i in keptSubs
      {
        if 0 <= i < |subs| {
          assert subs[i] == if test(members[i].0, members[i].1) then Some(Eval(members[i].1, rest)) else None;
        }
      }
      assert kept == keptSubs;
    }
  }

  /** A key predicate on an object aggregates the members' sub-outcomes. */
  lemma {:induction false} KeyPredicateGathers(members: seq<(string, Node)>, test: (string, Node) -> bool, rest: seq<Selector>)
    ensures Eval(Obj(members), [KeyPred(test)] + rest) == Gather(MemberSubs(members, test, rest))
    ensures forall i :: 0 <= i < |members| ==>
      MemberSubs(members, test, rest)[i] ==
        if test(members[i].0, members[i].1) then Some(Eval(members[i].1, rest)) else None
  {
    assert ([KeyPred(test)] + rest)[1..] == rest;
  }

  /** What an enumeration of the kept sub-outcomes holds: each kept
      sub-outcome, and one entry per kept position. */
  lemma EnumeratesContents(items: seq<Outcome>, subs: seq<Option<Outcome>>, idx: seq<int>)
    requires Enumerates(items, subs, idx)
    ensures forall o :: o in items <==> !o.Skipped() && Some(o) in subs
    ensures |items| == |set i | 0 <= i < |subs| && subs[i].Some? && !subs[i].value.Skipped()|
  {
    forall o: Outcome ensures o in items <==> !o.Skipped() && Some(o) in subs
    {
      if o in items {
        var j :| 0 <= j < |items| && items[j] == o;
        assert subs[idx[j]] == Some(o);
      }
      if !o.Skipped() && Some(o) in subs {
        var i :| 0 <= i < |subs| && subs[i] == Some(o);
        assert i in idx;
        var j :| 0 <= j < |idx| && idx[j] == i;
        assert items[j] == o;
      }
    }
    var kept := set i | 0 <= i < |subs| && subs[i].Some? && !subs[i].value.Skipped();
    forall i: int ensures i in kept <==> i in idx
    {
      if i in idx {
        var j :| 0 <= j < |idx| && idx[j] == i;
        assert subs[i] == Some(items[j]);
      }
    }
    IndexSetSize(idx, kept);
  }

  /** A strictly increasing sequence of positions enumerating a set has as
      many entries as the set has elements. */
  lemma {:induction false} IndexSetSize(idx: seq<int>, s: set<int>)
    requires forall j, j' :: 0 <= j < j' < |idx| ==> idx[j] < idx[j']
    requires forall i :: i in s <==> i in idx
    ensures |idx| == |s|
  {
    if |idx| == 0 {
      assert forall i :: i !in s;
      assert s == {};
    } else {
      var last := idx[|idx| - 1];
      assert last in s;
      var pre := idx[..|idx| - 1];
      forall i: int ensures i in s - {last} <==> i in pre
      {
        if i in pre {
          var j :| 0 <= j < |pre| && pre[j] == i;
          assert idx[j] < last;
        }
        if i in s - {last} {
          var j :| 0 <= j < |idx| && idx[j] == i;
          assert j != |idx| - 1;
          assert pre[j] == i;
        }
      }
      IndexSetSize(pre, s - {last});
      assert |s| == |s - {last}| + 1;
    }
  }

  /** Slice aggregation over a window [lo, hi) of selected positions yields
      the selected sub-outcomes in position order, one entry per position. */
  lemma {:induction false} PresentWindow(subs: seq<Option<Outcome>>, lo: int, hi: int)
    requires 0 <= lo <= hi <= |subs|
    requires forall i :: 0 <= i < |subs| ==> (subs[i].Some? <==> lo <= i < hi)
    ensures |Present(subs)| == hi - lo
    ensures forall j :: 0 <= j < hi - lo ==> Some(Present(subs)[j]) == subs[lo + j]
  {
    if |subs| > 0 {
      var n := |subs| - 1;
      var pre := subs[..n];
      assert forall i :: 0 <= i < n ==> pre[i] == subs[i];
      if hi <= n {
        PresentWindow(pre, lo, hi);
        assert Present(subs) == Present(pre);
      } else if lo == hi {
        PresentWindow(pre, n, n);
        assert Present(subs) == Present(pre);
      } else {
        PresentWindow(pre, lo, n);
        assert Present(subs) == Present(pre) + [subs[n].value];
      }
    }
  }

  /** A slice selector on an array: one entry per index i with
      0 <= i < length and start <= i < stop, in index order, each the
      unfiltered outcome of the rest of the path on that element. */
  lemma {:induction false} SliceSelection(elems: seq<Node>, start: int, stop: int, rest: seq<Selector>)
    ensures var r := Eval(Arr(elems), [Slice(start, stop)] + rest);
      && r.Agg?
      && |r.items| == Max(0, Min(stop, |elems|) - Max(start, 0))
      && forall j :: 0 <= j < |r.items| ==> r.items[j] == Eval(elems[Max(start, 0) + j], rest)
  {
    SliceGathers(elems, start, stop, rest);
    var subs := SliceSubs(elems, start, stop, rest);
    var outcomes := seq(|elems|, i requires 0 <= i < |elems| => Eval(elems[i], rest));
    SliceWindow(subs, outcomes, start, stop);
  }

  /** Slice aggregation where position i carries `outcomes[i]` exactly when
      start <= i < stop. */
  lemma {:induction false} SliceWindow(subs: seq<Option<Outcome>>, outcomes: seq<Outcome>, start: int, stop: int)
    requires |subs| == |outcomes|
    requires forall i :: 0 <= i < |subs| ==> subs[i] == if start <= i < stop then Some(outcomes[i]) else None
    ensures |Present(subs)| == Max(0, Min(stop, |subs|) - Max(start, 0))
    ensures forall j :: 0 <= j < |Present(subs)| ==> Present(subs)[j] == outcomes[Max(start, 0) + j]
  {
    var lo := Max(start, 0);
    var hi := Min(stop, |subs|);
    if lo < hi {
      forall i | 0 <= i < |subs| ensures subs[i].Some? <==> lo <= i < hi
      {
        assert start <= i < stop <==> lo <= i < hi;
      }
      PresentWindow(subs, lo, hi);
      forall j | 0 <= j < hi - lo
        ensures Present(subs)[j] == outcomes[lo + j]
      {
        assert Some(Present(subs)[j]) == subs[lo + j];
      }
    } else {
      forall i | 0 <= i < |subs| ensures subs[i].None?
      {
        assert !(start <= i < stop);
      }
      PresentWindow(subs, 0, 0);
    }
  }

  /** A slice selector on an array appends every selected sub-outcome. */
  lemma {:induction false} SliceGathers(elems: seq<Node>, start: int, stop: int, rest: seq<Selector>)
    ensures Eval(Arr(elems), [Slice(start, stop)] + rest) == Agg(Present(SliceSubs(elems, start, stop, rest)))
    ensures forall i :: 0 <= i < |elems| ==>
      SliceSubs(elems, start, stop, rest)[i] == if start <= i < stop then Some(Eval(elems[i], rest)) else None
  {
    assert ([Slice(start, stop)] + rest)[1..] == rest;
  }

  /** The aggregation asymmetry: a slice keeps a failing sub-outcome of a
      selected element, while an index predicate selecting the same element
      drops it. */
  lemma AggregationAsymmetry(elems: seq<Node>, i: int, rest: seq<Selector>)
    requires 0 <= i < |elems| && Eval(elems[i], rest).Skipped()
    ensures Eval(elems[i], rest) in Eval(Arr(elems), [Slice(i, i + 1)] + rest).items
    ensures var r := Eval(Arr(elems), [IdxPred((k: int, v: Node) => k == i)] + rest);
      r.Agg? && Eval(elems[i], rest) !in r.items
  {
    SliceSelection(elems, i, i + 1, rest);
    assert Eval(Arr(elems), [Slice(i, i + 1)] + rest).items[0] == Eval(elems[i], rest);
    var only := (k: int, v: Node) => k == i;
    IndexPredicateShortCircuit(elems, only, rest);
    IndexPredicateSelection(elems, only, rest);
  }
}
