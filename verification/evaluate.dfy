/**
  The recursive path evaluator: walks a decoded JSON tree one selector at a
  time and yields a value, an aggregate, or one of three sentinel outcomes.
 */
module Evaluate {
  import opened Options
  import opened Json

  /** One step of a path. `Other` stands for any value of a shape the
      dispatcher does not recognise (a floating-point number, say). */
  datatype Selector =
    | Key(key: string)
    | Index(index: int)
    | Slice(start: int, stop: int)
    | IdxPred(indexTest: (int, Node) -> bool)
    | KeyPred(keyTest: (string, Node) -> bool)
    | Other
  {
    /** Key and index selectors address at most one child. */
    predicate Scalar() { Key? || Index? }
  }

  /** What evaluating a path yields. `Agg` is the list built by a predicate
      or slice selector; its entries may themselves be sentinels (slices do
      not filter them). */
  datatype Outcome =
    | Val(node: Node)
    | Agg(items: seq<Outcome>)
    | NotFound
    | TypeMismatch
    | Unknown
  {
    predicate IsSentinel() { NotFound? || TypeMismatch? || Unknown? }

    /** The failures a predicate aggregate skips instead of propagating. */
    predicate Skipped() { NotFound? || TypeMismatch? }
  }

  predicate AllScalar(path: seq<Selector>)
  {
    forall i :: 0 <= i < |path| ==> path[i].Scalar()
  }

  /** Evaluates `path` against `node`. A path made only of keys and indices
      yields one value or a not-found/type-mismatch failure; aggregates and
      unknown-selector outcomes need some other selector on the path; and the
      two "skippable" failures only surface at the top through a key or index
      selector in front. */
  function Eval(node: Node, path: seq<Selector>): (r: Outcome)
    ensures r.Val? ==> AllScalar(path)
    ensures (r.Agg? || r.Unknown?) ==> !AllScalar(path)
    ensures r.Skipped() ==> |path| > 0 && path[0].Scalar()
    decreases |path|, 1
  {
    if |path| == 0 then Val(node)
    else
      var rest := path[1..];
      match path[0]
      case Key(key) =>
        (match node
         case Obj(members) =>
           (match FindKey(members, key)
            case Some(j) => Eval(members[j].1, rest)
            case None => NotFound)
         case _ => TypeMismatch)
      case Index(index) =>
        (match node
         case Arr(elems) =>
           if 0 <= index < |elems| then Eval(elems[index], rest) else NotFound
         case _ => TypeMismatch)
      case IdxPred(test) =>
        (match node
         case Arr(elems) => Gather(IndexSubs(elems, test, rest))
         case _ => Unknown)
      case KeyPred(test) =>
        (match node
         case Obj(members) => Gather(MemberSubs(members, test, rest))
         case _ => Unknown)
      case Slice(start, stop) =>
        (match node
         case Arr(elems) => Agg(Present(SliceSubs(elems, start, stop, rest)))
         case _ => Unknown)
      case Other => Unknown
  }

  /** For every array element: the outcome of the rest of the path on it
      when the index predicate selects it, None otherwise. */
  function IndexSubs(elems: seq<Node>, test: (int, Node) -> bool, rest: seq<Selector>)
    : seq<Option<Outcome>>
    decreases |rest| + 1, 0
  {
    seq(|elems|, i requires 0 <= i < |elems| =>
      if test(i, elems[i]) then Some(Eval(elems[i], rest)) else None)
  }

  /** The same for the members of an object and a key predicate. */
  function MemberSubs(members: seq<(string, Node)>, test: (string, Node) -> bool, rest: seq<Selector>)
    : seq<Option<Outcome>>
    decreases |rest| + 1, 0
  {
    seq(|members|, i requires 0 <= i < |members| =>
      if test(members[i].0, members[i].1) then Some(Eval(members[i].1, rest)) else None)
  }

  /** The same for the elements whose index lies in [start, stop). */
  function SliceSubs(elems: seq<Node>, start: int, stop: int, rest: seq<Selector>)
    : seq<Option<Outcome>>
    decreases |rest| + 1, 0
  {
    seq(|elems|, i requires 0 <= i < |elems| =>
      if start <= i < stop then Some(Eval(elems[i], rest)) else None)
  }

  /** Predicate aggregation, element by element in order: unselected
      elements and not-found/type-mismatch sub-outcomes are skipped, an
      unknown-selector sub-outcome makes the whole result unknown, and every
      other sub-outcome is appended. */
  function Gather(subs: seq<Option<Outcome>>): (r: Outcome)
    ensures r.Agg? || r.Unknown?
    ensures r.Unknown? <==> Some(Unknown) in subs
    ensures r.Agg? ==> forall j :: 0 <= j < |r.items| ==> r.items[j].Val? || r.items[j].Agg?
  {
    if |subs| == 0 then Agg([])
    else
      var prior := Gather(subs[..|subs| - 1]);
      match subs[|subs| - 1]
      case None => prior
      case Some(o) =>
        if prior.Unknown? || o.Unknown? then Unknown
        else if o.Skipped() then prior
        else Agg(prior.items + [o])
  }

  /** Slice aggregation: every selected sub-outcome is appended as it is. */
  function Present(subs: seq<Option<Outcome>>): (items: seq<Outcome>)
    ensures |items| <= |subs|
  {
    if |subs| == 0 then []
    else
      var prior := Present(subs[..|subs| - 1]);
      match subs[|subs| - 1]
      case None => prior
      case Some(o) => prior + [o]
  }

  /** The positions of the selected sub-outcomes a predicate aggregate keeps,
      in increasing order. */
  ghost function KeptIndices(subs: seq<Option<Outcome>>): (idx: seq<int>)
    ensures forall j :: 0 <= j < |idx| ==> 0 <= idx[j] < |subs|
  {
    if |subs| == 0 then []
    else
      var n := |subs| - 1;
      KeptIndices(subs[..n]) + (if subs[n].Some? && !subs[n].value.Skipped() then [n] else [])
  }

  /** `items` lists, in increasing position order, exactly the selected
      sub-outcomes at positions `idx` that are not skipped failures. */
  ghost predicate Enumerates(items: seq<Outcome>, subs: seq<Option<Outcome>>, idx: seq<int>)
  {
    && |idx| == |items|
    && (forall j :: 0 <= j < |idx| ==>
          0 <= idx[j] < |subs| && subs[idx[j]] == Some(items[j]) && !items[j].Skipped())
    && (forall j, j' :: 0 <= j < j' < |idx| ==> idx[j] < idx[j'])
    && (forall i :: 0 <= i < |subs| && subs[i].Some? && !subs[i].value.Skipped() ==> i in idx)
  }

  /** A predicate aggregate that is not unknown keeps one entry per selected,
      non-skipped sub-outcome, in order. */
  lemma {:induction false} GatherEnumerates(subs: seq<Option<Outcome>>)
    ensures Gather(subs).Agg? ==> Enumerates(Gather(subs).items, subs, KeptIndices(subs))
  {
    if |subs| > 0 && Gather(subs).Agg? {
      var n := |subs| - 1;
      var pre := subs[..n];
      assert subs == pre + [subs[n]];
      GatherEnumerates(pre);
      EnumeratesExtend(Gather(pre).items, pre, KeptIndices(pre), subs[n]);
    }
  }

  /** Appending one sub-outcome extends an enumeration by its position when
      it is kept, and leaves the enumeration as it is otherwise. */
  lemma EnumeratesExtend(items: seq<Outcome>, pre: seq<Option<Outcome>>, idx: seq<int>, last: Option<Outcome>)
    requires Enumerates(items, pre, idx)
    ensures last.Some? && !last.value.Skipped() ==> Enumerates(items + [last.value], pre + [last], idx + [|pre|])
    ensures !(last.Some? && !last.value.Skipped()) ==> Enumerates(items, pre + [last], idx)
  {
    var subs := pre + [last];
    assert forall i :: 0 <= i < |pre| ==> subs[i] == pre[i];
  }
}
