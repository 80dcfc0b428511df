/** Repetition, and `filter` and `map` in one: the shape of every bucket the classifier fills. */
module Sequences {
  import opened Wrappers

  function Repeat<T>(value: T, n: nat): (s: seq<T>)
    ensures |s| == n && forall i :: 0 <= i < n ==> s[i] == value
  {
    seq(n, _ => value)
  }

  /** The values `pick` finds, in order. */
  function FilterMap<A, B>(s: seq<A>, pick: A -> Option<B>): seq<B> {
    if s == [] then []
    else
      var rest := FilterMap(s[..|s| - 1], pick);
      match pick(s[|s| - 1])
      case None => rest
      case Some(b) => rest + [b]
  }

  /** The indices those values come from, in order. */
  function Positions<A, B>(s: seq<A>, pick: A -> Option<B>): seq<nat> {
    if s == [] then []
    else
      var rest := Positions(s[..|s| - 1], pick);
      if pick(s[|s| - 1]).None? then rest else rest + [|s| - 1]
  }

  lemma {:induction false} FilterMapAppend<A, B>(s: seq<A>, a: A, pick: A -> Option<B>)
    ensures FilterMap(s + [a], pick)
            == FilterMap(s, pick) + (if pick(a).Some? then [pick(a).value] else [])
  {
    assert (s + [a])[..|s|] == s;
  }

  /** Order and origin: the i-th value is what `pick` finds at the i-th position, the positions
      increase strictly, and they are exactly the indices where `pick` finds something. */
  ghost predicate Origins<A(!new), B(!new)>(s: seq<A>, pick: A -> Option<B>, values: seq<B>, at: seq<nat>) {
    && |values| == |at|
    && (forall i :: 0 <= i < |at| ==> at[i] < |s| && pick(s[at[i]]) == Some(values[i]))
    && (forall i, j :: 0 <= i < j < |at| ==> at[i] < at[j])
    && (forall k: nat :: k in at <==> k < |s| && pick(s[k]).Some?)
  }

  lemma OriginsSkip<A(!new), B(!new)>(s: seq<A>, a: A, pick: A -> Option<B>, values: seq<B>, at: seq<nat>)
    requires Origins(s, pick, values, at) && pick(a).None?
    ensures Origins(s + [a], pick, values, at)
  {
  }

  lemma OriginsPush<A(!new), B(!new)>(s: seq<A>, a: A, pick: A -> Option<B>, values: seq<B>, at: seq<nat>)
    requires Origins(s, pick, values, at) && pick(a).Some?
    ensures Origins(s + [a], pick, values + [pick(a).value], at + [|s|])
  {
    var s', at' := s + [a], at + [|s|];
    forall k: nat
      ensures k in at' <==> k < |s'| && pick(s'[k]).Some?
    {
      assert k in at' <==> k in at || k == |s|;
      assert k < |s| ==> s'[k] == s[k];
    }
  }

  lemma {:induction false} FilterMapOrigin<A(!new), B(!new)>(s: seq<A>, pick: A -> Option<B>)
    ensures Origins(s, pick, FilterMap(s, pick), Positions(s, pick))
  {
    if s != [] {
      var init, last := s[..|s| - 1], s[|s| - 1];
      FilterMapOrigin(init, pick);
      assert init + [last] == s;
      hide Origins;
      if pick(last).None? {
        OriginsSkip(init, last, pick, FilterMap(init, pick), Positions(init, pick));
      } else {
        OriginsPush(init, last, pick, FilterMap(init, pick), Positions(init, pick));
      }
    }
  }
}
