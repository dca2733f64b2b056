/**
  The decoded JSON tree the evaluator walks: the six kinds of value a
  generic JSON decoder produces.
 */
module Json {
  import opened Options

  /** A double-precision number, kept as its IEEE-754 bit pattern.
      The evaluator only ever tests whether a value is a number, so the
      payload is never interpreted. */
  datatype Float64 = Float64(bits: bv64)

  /** An object is kept as a sequence of (key, value) members; the
      sequence order stands for one iteration order of the decoded map. */
  datatype Node =
    | Null
    | Bool(b: bool)
    | Num(n: Float64)
    | Str(s: string)
    | Arr(elems: seq<Node>)
    | Obj(members: seq<(string, Node)>)

  /** The members of a decoded object have pairwise different keys. */
  predicate DistinctKeys(members: seq<(string, Node)>)
  {
    forall i, j :: 0 <= i < j < |members| ==> members[i].0 != members[j].0
  }

  /** Scans the members for the given key and yields the position of the
      first match, or None when no member has that key. */
  function FindKey(members: seq<(string, Node)>, key: string): (r: Option<nat>)
    ensures r.Some? ==> r.value < |members| && members[r.value].0 == key
    ensures r.Some? ==> forall i :: 0 <= i < r.value ==> members[i].0 != key
    ensures r.None? <==> forall i :: 0 <= i < |members| ==> members[i].0 != key
  {
    if |members| == 0 then None
    else if members[0].0 == key then Some(0)
    else
      match FindKey(members[1..], key)
      case None => None
      case Some(j) => Some(j + 1)
  }

  /** With distinct keys, the scan finds exactly the member carrying the key,
      wherever it sits in the sequence. */
  lemma FindKeyUnique(members: seq<(string, Node)>, key: string, j: int)
    requires DistinctKeys(members)
    requires 0 <= j < |members| && members[j].0 == key
    ensures FindKey(members, key) == Some(j)
  {
  }
}
