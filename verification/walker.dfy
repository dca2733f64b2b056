/**
  The evaluator written the way the Go code is: one loop over the container
  per selector kind, early returns, and a fall-through to the unknown
  selector outcome. It is proved to compute exactly `Evaluate.Eval`.
 */
module Walker {
  import opened Options
  import opened Json
  import opened Evaluate

  method RecursiveGet(data: Node, path: seq<Selector>) returns (r: Outcome)
    ensures r == Eval(data, path)
    decreases |path|, 1
  {
    if |path| == 0 {
      return Val(data);
    }
    var rest := path[1..];
    match path[0] {
      case Key(key) =>
        match data {
          case Obj(members) =>
            var n := 0;
            while n < |members|
              invariant 0 <= n <= |members|
              invariant forall i :: 0 <= i < n ==> members[i].0 != key
            {
              if members[n].0 == key {
                r := RecursiveGet(members[n].1, rest);
                return;
              }
              n := n + 1;
            }
            return NotFound;
          case _ =>
            return TypeMismatch;
        }
      case Index(index) =>
        match data {
          case Arr(elems) =>
            var n := 0;
            while n < |elems|
              invariant 0 <= n <= |elems|
              invariant !(0 <= index < n)
            {
              if n == index {
                r := RecursiveGet(elems[n], rest);
                return;
              }
              n := n + 1;
            }
            return NotFound;
          case _ =>
            return TypeMismatch;
        }
      case IdxPred(test) =>
        match data {
          case Arr(elems) =>
            r := GatherByIndex(elems, test, rest);
            return;
          case _ =>
        }
      case KeyPred(test) =>
        match data {
          case Obj(members) =>
            r := GatherByKey(members, test, rest);
            return;
          case _ =>
        }
      case Slice(start, stop) =>
        match data {
          case Arr(elems) =>
            r := CollectSlice(elems, start, stop, rest);
            return;
          case _ =>
        }
      case Other =>
    }
    return Unknown;
  }

  /** The index-predicate loop: skips not-found and type-mismatch
      sub-outcomes and returns at the first unknown one. */
  method GatherByIndex(elems: seq<Node>, test: (int, Node) -> bool, rest: seq<Selector>) returns (r: Outcome)
    ensures r == Gather(IndexSubs(elems, test, rest))
    decreases |rest| + 1, 0
  {
    ghost var subs := IndexSubs(elems, test, rest);
    var ret: seq<Outcome> := [];
    var n := 0;
    while n < |elems|
      invariant 0 <= n <= |elems|
      invariant Gather(subs[..n]) == Agg(ret)
    {
      assert subs[..n + 1][..n] == subs[..n];
      if test(n, elems[n]) {
        var val := RecursiveGet(elems[n], rest);
        if val.Unknown? {
          assert subs[n] == Some(Unknown);
          return val;
        }
        if !val.Skipped() {
          ret := ret + [val];
        }
      }
      n := n + 1;
    }
    assert subs[..n] == subs;
    return Agg(ret);
  }

  /** The key-predicate loop, visiting the members in sequence order. */
  method GatherByKey(members: seq<(string, Node)>, test: (string, Node) -> bool, rest: seq<Selector>)
    returns (r: Outcome)
    ensures r == Gather(MemberSubs(members, test, rest))
    decreases |rest| + 1, 0
  {
    ghost var subs := MemberSubs(members, test, rest);
    var ret: seq<Outcome> := [];
    var n := 0;
    while n < |members|
      invariant 0 <= n <= |members|
      invariant Gather(subs[..n]) == Agg(ret)
    {
      assert subs[..n + 1][..n] == subs[..n];
      var (k, v) := members[n];
      if test(k, v) {
        var val := RecursiveGet(v, rest);
        if val.Unknown? {
          assert subs[n] == Some(Unknown);
          return val;
        }
        if !val.Skipped() {
          ret := ret + [val];
        }
      }
      n := n + 1;
    }
    assert subs[..n] == subs;
    return Agg(ret);
  }

  /** The slice loop: appends the sub-outcome of every element whose index
      lies in [start, stop), sentinels included. */
  method CollectSlice(elems: seq<Node>, start: int, stop: int, rest: seq<Selector>) returns (r: Outcome)
    ensures r == Agg(Present(SliceSubs(elems, start, stop, rest)))
    decreases |rest| + 1, 0
  {
    ghost var subs := SliceSubs(elems, start, stop, rest);
    var ret: seq<Outcome> := [];
    var n := 0;
    while n < |elems|
      invariant 0 <= n <= |elems|
      invariant Present(subs[..n]) == ret
    {
      assert subs[..n + 1][..n] == subs[..n];
      if start <= n && n < stop {
        var val := RecursiveGet(elems[n], rest);
        ret := ret + [val];
      }
      n := n + 1;
    }
    assert subs[..n] == subs;
    return Agg(ret);
  }
}
