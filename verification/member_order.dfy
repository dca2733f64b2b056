/**
  Go iterates a decoded object in an unspecified order; the model fixes one
  order, the sequence of members. These lemmas show the choice does not
  matter for the object being iterated: reordering its members, with their
  values unchanged, gives a key lookup the same outcome and a key-predicate
  aggregate the same entries, counted with multiplicity. Objects nested in
  the member values keep their own fixed order; the lemmas say nothing about
  reordering those.
 */
module MemberOrder {
  import opened Options
  import opened Json
  import opened Evaluate
  import Selectors

  lemma {:induction false} MemberSubsConcat(a: seq<(string, Node)>, b: seq<(string, Node)>,
                                            test: (string, Node) -> bool, rest: seq<Selector>)
    ensures MemberSubs(a + b, test, rest) == MemberSubs(a, test, rest) + MemberSubs(b, test, rest)
  {
    var ab := a + b;
    assert forall i :: 0 <= i < |a| ==> ab[i] == a[i];
    assert forall i :: |a| <= i < |ab| ==> ab[i] == b[i - |a|];
  }

  /** Reordering the members reorders their sub-outcomes the same way. */
  lemma {:induction false} MemberSubsPermutation(a: seq<(string, Node)>, b: seq<(string, Node)>,
                                                 test: (string, Node) -> bool, rest: seq<Selector>)
    requires multiset(a) == multiset(b)
    ensures multiset(MemberSubs(a, test, rest)) == multiset(MemberSubs(b, test, rest))
    decreases |a|
  {
    if |a| == 0 {
      assert |b| == |multiset(b)| == 0;
    } else {
      var x := a[0];
      assert x in multiset(b);
      var j :| 0 <= j < |b| && b[j] == x;
      var b' := b[..j] + b[j + 1..];
      assert b == b[..j] + [x] + b[j + 1..];
      assert a == [x] + a[1..];
      assert multiset(a[1..]) == multiset(a) - multiset{x};
      assert multiset(b) == multiset(b[..j]) + multiset{x} + multiset(b[j + 1..]);
      assert multiset(b') == multiset(b) - multiset{x};
      MemberSubsPermutation(a[1..], b', test, rest);
      MemberSubsConcat([x], a[1..], test, rest);
      MemberSubsConcat(b[..j], [x], test, rest);
      MemberSubsConcat(b[..j] + [x], b[j + 1..], test, rest);
      MemberSubsConcat(b[..j], b[j + 1..], test, rest);
    }
  }

  /** How often a predicate aggregate holds an entry: as often as it occurs
      among the selected sub-outcomes, unless it is a skipped failure. */
  lemma {:induction false} GatherCount(subs: seq<Option<Outcome>>, o: Outcome)
    requires Gather(subs).Agg?
    ensures multiset(Gather(subs).items)[o] == if o.Skipped() then 0 else multiset(subs)[Some(o)]
  {
    if |subs| > 0 {
      var n := |subs| - 1;
      var pre := subs[..n];
      assert subs == pre + [subs[n]];
      assert multiset(subs) == multiset(pre) + multiset{subs[n]};
      var prior := Gather(pre);
      assert prior.Agg?;
      GatherCount(pre, o);
      if subs[n].Some? && !subs[n].value.Skipped() {
        assert Gather(subs).items == prior.items + [subs[n].value];
      } else {
        assert Gather(subs) == prior;
      }
    }
  }

  /** Sub-outcome sequences with the same entries aggregate to the same
      entries. */
  lemma GatherPermutation(s: seq<Option<Outcome>>, t: seq<Option<Outcome>>)
    requires multiset(s) == multiset(t)
    ensures Gather(s).Unknown? <==> Gather(t).Unknown?
    ensures Gather(s).Agg? ==> multiset(Gather(s).items) == multiset(Gather(t).items)
  {
    assert Some(Unknown) in s <==> Some(Unknown) in multiset(s);
    assert Some(Unknown) in t <==> Some(Unknown) in multiset(t);
    if Gather(s).Agg? {
      forall o: Outcome ensures multiset(Gather(s).items)[o] == multiset(Gather(t).items)[o]
      {
        GatherCount(s, o);
        GatherCount(t, o);
      }
    }
  }

  /** A key predicate yields the same outcome kind, and an aggregate with
      the same entries, whatever order the members are visited in. */
  lemma KeyPredicateOrderIndependent(a: seq<(string, Node)>, b: seq<(string, Node)>,
                                     test: (string, Node) -> bool, rest: seq<Selector>)
    requires multiset(a) == multiset(b)
    ensures Eval(Obj(a), [KeyPred(test)] + rest).Unknown? <==> Eval(Obj(b), [KeyPred(test)] + rest).Unknown?
    ensures Eval(Obj(a), [KeyPred(test)] + rest).Agg? ==>
              multiset(Eval(Obj(a), [KeyPred(test)] + rest).items) == multiset(Eval(Obj(b), [KeyPred(test)] + rest).items)
  {
    Selectors.KeyPredicateGathers(a, test, rest);
    Selectors.KeyPredicateGathers(b, test, rest);
    MemberSubsPermutation(a, b, test, rest);
    GatherPermutation(MemberSubs(a, test, rest), MemberSubs(b, test, rest));
  }

  /** Key lookup in an object with distinct keys gives the same outcome
      whatever order its members are visited in. Any reordering of distinct
      keys is itself distinct, so only the original needs the invariant. */
  lemma KeyLookupOrderIndependent(a: seq<(string, Node)>, b: seq<(string, Node)>, key: string, rest: seq<Selector>)
    requires DistinctKeys(a)
    requires multiset(a) == multiset(b)
    ensures Eval(Obj(a), [Key(key)] + rest) == Eval(Obj(b), [Key(key)] + rest)
  {
    assert ([Key(key)] + rest)[1..] == rest;
    if i :| 0 <= i < |a| && a[i].0 == key {
      FindKeyUnique(a, key, i);
      assert a[i] in multiset(b);
      var j :| 0 <= j < |b| && b[j] == a[i];
      var k := FindKey(b, key).value;
      assert b[k] in multiset(a);
      var p :| 0 <= p < |a| && a[p] == b[k];
      FindKeyUnique(a, key, p);
      assert b[k] == a[i];
    } else {
      forall i | 0 <= i < |b| ensures b[i].0 != key
      {
        assert b[i] in multiset(a);
      }
    }
  }

  /** The positions of `s` holding `x`. */
  ghost function Positions<T>(s: seq<T>, x: T): set<int>
  {
    set i | 0 <= i < |s| && s[i] == x
  }

  /** How often an entry occurs in a sequence: once per position holding it. */
  lemma {:induction false} CountPositions<T>(s: seq<T>, x: T)
    ensures multiset(s)[x] == |Positions(s, x)|
  {
    var at := Positions(s, x);
    if |s| == 0 {
      assert at == {};
    } else {
      var n := |s| - 1;
      var pre := s[..n];
      assert s == pre + [s[n]];
      assert multiset(s) == multiset(pre) + multiset{s[n]};
      CountPositions(pre, x);
      var atPre := Positions(pre, x);
      assert n !in atPre;
      if s[n] == x {
        assert at == atPre + {n};
      } else {
        assert at == atPre;
      }
    }
  }

  /** The positions of the members a key predicate selects and whose
      sub-outcome is `o`. */
  ghost function MembersYielding(members: seq<(string, Node)>, test: (string, Node) -> bool,
                                 rest: seq<Selector>, o: Outcome): set<int>
  {
    set i | 0 <= i < |members| && test(members[i].0, members[i].1) && Eval(members[i].1, rest) == o
  }

  /** A key-predicate aggregate holds each outcome once per selected member
      yielding it, and never a not-found or type-mismatch failure. */
  lemma KeyPredicateMultiplicity(members: seq<(string, Node)>, test: (string, Node) -> bool,
                                 rest: seq<Selector>, o: Outcome)
    ensures var r := Eval(Obj(members), [KeyPred(test)] + rest);
      r.Agg? ==> multiset(r.items)[o] == if o.Skipped() then 0 else |MembersYielding(members, test, rest, o)|
  {
    Selectors.KeyPredicateGathers(members, test, rest);
    var subs := MemberSubs(members, test, rest);
    var r := Gather(subs);
    if r.Agg? {
      GatherCount(subs, o);
      CountPositions(subs, Some(o));
      YieldingPositions(members, test, rest, o);
    }
  }

  /** The members yielding `o` sit at the positions whose sub-outcome is `o`. */
  lemma YieldingPositions(members: seq<(string, Node)>, test: (string, Node) -> bool,
                          rest: seq<Selector>, o: Outcome)
    ensures Positions(MemberSubs(members, test, rest), Some(o)) == MembersYielding(members, test, rest, o)
  {
    var subs := MemberSubs(members, test, rest);
    var at := Positions(subs, Some(o));
    forall i: int ensures i in at <==> i in MembersYielding(members, test, rest, o)
    {
      if 0 <= i < |subs| {
        assert subs[i] == if test(members[i].0, members[i].1) then Some(Eval(members[i].1, rest)) else None;
      }
    }
  }
}
