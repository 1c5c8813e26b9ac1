/**
 The capacity cut after a context merge, and the merge procedure itself. At most eight relations
 stay; comment bodies stay before everything else; what stays keeps its order.
 */
module ContextCapacity {
  import opened Common
  import opened DirectContext

  predicate CommentBody(env: Env, r: Relation) {
    r.target.kind == "comment" && (env.trim(r.target.text) != "" || r.target.hasMedia)
  }

  function Flags(env: Env, rs: seq<Relation>): seq<bool> {
    seq(|rs|, i requires 0 <= i < |rs| => CommentBody(env, rs[i]))
  }

  /** The indices below n whose flag is `want`, in ascending order. */
  function Indices(flags: seq<bool>, want: bool, n: nat): seq<nat>
    requires n <= |flags|
  {
    if n == 0 then [] else Indices(flags, want, n - 1) + (if flags[n - 1] == want then [n - 1] else [])
  }

  /** The stable order: comment bodies first. */
  function Order(flags: seq<bool>): seq<nat> {
    Indices(flags, true, |flags|) + Indices(flags, false, |flags|)
  }

  /** The members of `chosen` below n, in ascending order. */
  function Ascending(chosen: seq<nat>, n: nat): seq<nat> {
    if n == 0 then [] else Ascending(chosen, n - 1) + (if n - 1 in chosen then [n - 1] else [])
  }

  /** The positions that survive the cut. */
  function Survivors(flags: seq<bool>): seq<nat>
    requires |flags| > LIMIT && |Order(flags)| == |flags|
  {
    Ascending(Order(flags)[..LIMIT], |flags|)
  }

  lemma {:induction false} IndicesAre(flags: seq<bool>, want: bool, n: nat)
    requires n <= |flags|
    ensures forall i :: i in Indices(flags, want, n) <==> 0 <= i < n && flags[i] == want
    ensures forall a, b :: 0 <= a < b < |Indices(flags, want, n)| ==> Indices(flags, want, n)[a] < Indices(flags, want, n)[b]
  {
    if n == 0 {
    } else {
      IndicesAre(flags, want, n - 1);
      var before := Indices(flags, want, n - 1);
      assert forall a :: 0 <= a < |before| ==> before[a] in before;
    }
  }

  lemma {:induction false} IndicesCover(flags: seq<bool>, n: nat)
    requires n <= |flags|
    ensures |Indices(flags, true, n)| + |Indices(flags, false, n)| == n
  {
    if n == 0 {
    } else {
      IndicesCover(flags, n - 1);
    }
  }

  /** The order is a permutation of the positions, and a body left out means eight bodies before it. */
  lemma OrderIsStable(flags: seq<bool>)
    ensures |Order(flags)| == |flags|
    ensures forall a, b :: 0 <= a < b < |flags| ==> Order(flags)[a] != Order(flags)[b]
    ensures forall a :: 0 <= a < |flags| ==> Order(flags)[a] < |flags|
    ensures forall i :: 0 <= i < |flags| ==> i in Order(flags)
    ensures forall a, b :: 0 <= a < b < |flags| && flags[Order(flags)[b]] ==> flags[Order(flags)[a]]
    ensures forall a, b :: 0 <= a < b < |flags| && flags[Order(flags)[a]] == flags[Order(flags)[b]] ==>
              Order(flags)[a] < Order(flags)[b]
  {
    var bodies, rest := Indices(flags, true, |flags|), Indices(flags, false, |flags|);
    IndicesAre(flags, true, |flags|);
    IndicesAre(flags, false, |flags|);
    IndicesCover(flags, |flags|);
    assert forall i :: 0 <= i < |bodies| ==> bodies[i] in bodies;
    assert forall i :: 0 <= i < |rest| ==> rest[i] in rest;
    assert Order(flags) == bodies + rest;
  }

  lemma {:induction false} AscendingIs(chosen: seq<nat>, n: nat)
    ensures forall i :: i in Ascending(chosen, n) <==> i in chosen && i < n
    ensures forall a, b :: 0 <= a < b < |Ascending(chosen, n)| ==> Ascending(chosen, n)[a] < Ascending(chosen, n)[b]
  {
    if n == 0 {
    } else {
      AscendingIs(chosen, n - 1);
      var before := Ascending(chosen, n - 1);
      assert forall a :: 0 <= a < |before| ==> before[a] in before;
    }
  }

  lemma AscendingSize(chosen: seq<nat>, n: nat)
    requires forall a, b :: 0 <= a < b < |chosen| ==> chosen[a] != chosen[b]
    requires forall a :: 0 <= a < |chosen| ==> chosen[a] < n
    ensures |Ascending(chosen, n)| == |chosen|
  {
    AscendingIs(chosen, n);
    DistinctSize(chosen);
    DistinctSize(Ascending(chosen, n));
    assert Members(Ascending(chosen, n)) == Members(chosen);
  }

  function Members(s: seq<nat>): set<nat> { set i | i in s }

  lemma {:induction false} DistinctSize(s: seq<nat>)
    requires forall a, b :: 0 <= a < b < |s| ==> s[a] != s[b]
    ensures |Members(s)| == |s|
  {
    if s == [] {
      assert Members(s) == {};
    } else {
      var rest := s[..|s| - 1];
      DistinctSize(rest);
      var x := s[|s| - 1];
      assert s == rest + [x] && x !in rest;
      assert Members(s) == Members(rest) + {x};
    }
  }

  /** Exactly eight positions survive, in order; a comment body is dropped only for eight others. */
  lemma SurvivorsAre(flags: seq<bool>)
    requires |flags| > LIMIT
    ensures |Order(flags)| == |flags| && |Survivors(flags)| == LIMIT
    ensures forall a :: 0 <= a < LIMIT ==> Survivors(flags)[a] < |flags|
    ensures forall a, b :: 0 <= a < b < LIMIT ==> Survivors(flags)[a] < Survivors(flags)[b]
    ensures forall i, j :: 0 <= i < |flags| && i !in Survivors(flags) && j in Survivors(flags) && flags[i] ==> flags[j] && j < i
    ensures forall i, j :: 0 <= i < |flags| && i !in Survivors(flags) && j in Survivors(flags) && !flags[i] && !flags[j] ==> j < i
  {
    OrderIsStable(flags);
    var chosen := Order(flags)[..LIMIT];
    AscendingIs(chosen, |flags|);
    AscendingSize(chosen, |flags|);
    assert forall a :: 0 <= a < LIMIT ==> Survivors(flags)[a] in Survivors(flags);
    forall i, j | 0 <= i < |flags| && i !in Survivors(flags) && j in Survivors(flags)
      ensures flags[i] ==> flags[j] && j < i
      ensures !flags[i] && !flags[j] ==> j < i
    {
      var a :| 0 <= a < LIMIT && Order(flags)[a] == j;
      assert i in Order(flags);
      var b :| 0 <= b < |flags| && Order(flags)[b] == i;
      assert b >= LIMIT by { assert forall x :: 0 <= x < LIMIT ==> Order(flags)[x] == chosen[x] && chosen[x] in chosen; }
    }
  }

  function Pick(rs: seq<Relation>, positions: seq<nat>): seq<Relation>
    requires forall a :: 0 <= a < |positions| ==> positions[a] < |rs|
  {
    seq(|positions|, a requires 0 <= a < |positions| => rs[positions[a]])
  }

  /** What is left of a merged list. */
  function Retained(env: Env, rs: seq<Relation>): seq<Relation> {
    if |rs| <= LIMIT then rs else
      SurvivorsAre(Flags(env, rs));
      Pick(rs, Survivors(Flags(env, rs)))
  }

  function MergeContexts(env: Env, previous: seq<Relation>, current: seq<Relation>): seq<Relation> {
    Retained(env, AbsorbAll(env, Inputs(previous, current)))
  }

  lemma {:induction false} AbsorbAllDistinct(env: Env, vs: seq<Relation>)
    ensures Distinct(env, AbsorbAll(env, vs))
  {
    if vs == [] {
    } else {
      var rest := vs[..|vs| - 1];
      AbsorbAllDistinct(env, rest);
      AbsorbKeepsKeys(env, AbsorbAll(env, rest), vs[|vs| - 1]);
      KeysStayDistinct(env, AbsorbAll(env, rest), AbsorbAll(env, vs), KeyOf(env, vs[|vs| - 1]));
    }
  }

  lemma KeysStayDistinct(env: Env, rs: seq<Relation>, rs': seq<Relation>, key: Key)
    requires Distinct(env, rs) && |rs| <= |rs'| <= |rs| + 1
    requires forall j :: 0 <= j < |rs| ==> KeyOf(env, rs'[j]) == KeyOf(env, rs[j])
    requires |rs'| > |rs| ==> !KeySeen(env, rs, key) && KeyOf(env, rs'[|rs|]) == key
    ensures Distinct(env, rs')
  {
  }

  /** A comment with media or a text that is not blank. */
  predicate HasCommentBody(env: Env, o: ContextObject) { o.kind == "comment" && (o.hasMedia || env.trim(o.text) != "") }

  /**
   The merge returns exactly min(8, n) of the n merged relations, with distinct keys, in their
   merged order; a comment body is missing only if all eight that are there are comment bodies.
   */
  lemma MergeIsBounded(env: Env, previous: seq<Relation>, current: seq<Relation>) returns (positions: seq<nat>)
    ensures var rs := AbsorbAll(env, Inputs(previous, current));
            var r := MergeContexts(env, previous, current);
            && |positions| == |r| == (if |rs| < 8 then |rs| else 8)
            && (forall a :: 0 <= a < |r| ==> positions[a] < |rs| && r[a] == rs[positions[a]])
            && (forall a, b :: 0 <= a < b < |r| ==> positions[a] < positions[b])
            && Distinct(env, r)
            && (forall i :: 0 <= i < |rs| && i !in positions && HasCommentBody(env, rs[i].target) ==>
                  forall a :: 0 <= a < |r| ==> HasCommentBody(env, r[a].target))
  {
    var rs := AbsorbAll(env, Inputs(previous, current));
    AbsorbAllDistinct(env, Inputs(previous, current));
    positions := CutKeepsOrder(env, rs);
  }

  lemma CutKeepsOrder(env: Env, rs: seq<Relation>) returns (positions: seq<nat>)
    requires Distinct(env, rs)
    ensures var r := Retained(env, rs);
            && |positions| == |r| == (if |rs| < LIMIT then |rs| else LIMIT)
            && (forall a :: 0 <= a < |r| ==> positions[a] < |rs| && r[a] == rs[positions[a]])
            && (forall a, b :: 0 <= a < b < |r| ==> positions[a] < positions[b])
            && Distinct(env, r)
            && (forall i :: 0 <= i < |rs| && i !in positions && CommentBody(env, rs[i]) ==>
                  forall a :: 0 <= a < |r| ==> CommentBody(env, r[a]))
  {
    if |rs| <= LIMIT {
      positions := seq(|rs|, i requires 0 <= i < |rs| => i);
      assert forall i :: 0 <= i < |rs| ==> positions[i] == i;
    } else {
      var flags := Flags(env, rs);
      SurvivorsAre(flags);
      positions := Survivors(flags);
      var r := Retained(env, rs);
      forall i, a | 0 <= i < |rs| && i !in positions && CommentBody(env, rs[i]) && 0 <= a < |r|
        ensures CommentBody(env, r[a])
      {
        assert positions[a] in positions && flags[i] && flags[positions[a]];
      }
    }
  }

  // ---- the procedures ---------------------------------------------------------------------------

  /** The cut as it is carried out: a stable ordering of the indices, then truncation, then sorting back. */
  method Cut(env: Env, rs: seq<Relation>) returns (r: seq<Relation>)
    ensures r == Retained(env, rs)
  {
    if |rs| <= LIMIT { return rs; }
    ghost var flags := Flags(env, rs);
    var bodies, rest: seq<nat> := [], [];
    for i := 0 to |rs|
      invariant bodies == Indices(flags, true, i) && rest == Indices(flags, false, i)
    {
      if CommentBody(env, rs[i]) { bodies := bodies + [i]; } else { rest := rest + [i]; }
    }
    SurvivorsAre(flags);
    var chosen := (bodies + rest)[..LIMIT];
    r := [];
    ghost var positions: seq<nat> := [];
    for i := 0 to |rs|
      invariant positions == Ascending(chosen, i)
      invariant forall a :: 0 <= a < |positions| ==> positions[a] < |rs|
      invariant r == Pick(rs, positions)
    {
      if i in chosen {
        r := r + [rs[i]];
        positions := positions + [i];
      }
    }
  }

  /** The table of keys seen so far finds exactly what a search would. */
  ghost predicate TableFor(env: Env, rs: seq<Relation>, seen: map<Key, nat>) {
    && Distinct(env, rs)
    && (forall key :: key in seen ==> seen[key] < |rs| && KeyOf(env, rs[seen[key]]) == key)
    && (forall i :: 0 <= i < |rs| ==> KeyOf(env, rs[i]) in seen)
  }

  method AbsorbOne(env: Env, rs: seq<Relation>, seen: map<Key, nat>, v: Relation)
      returns (rs': seq<Relation>, seen': map<Key, nat>)
    requires TableFor(env, rs, seen)
    ensures rs' == Absorb(env, rs, v) && TableFor(env, rs', seen')
  {
    AbsorbKeepsKeys(env, rs, v);
    NormalKeepsKey(env, v);
    KeysStayDistinct(env, rs, Absorb(env, rs, v), KeyOf(env, v));
    var value := Normal(v);
    var key := KeyOf(env, value);
    if key in seen {
      var i := seen[key];
      assert i == Find(env, rs, key);
      if key.Stable? { rs' := rs[i := Combine(env, rs[i], value)]; } else { rs' := rs; }
      seen' := seen;
    } else {
      rs' := rs + [value];
      seen' := seen[key := |rs|];
    }
  }

  lemma AbsorbNext(env: Env, all: seq<Relation>, i: nat)
    requires i < |all|
    ensures AbsorbAll(env, all[..i + 1]) == Absorb(env, AbsorbAll(env, all[..i]), all[i])
  {
    assert all[..i + 1][..i] == all[..i];
  }

  method AbsorbEach(env: Env, all: seq<Relation>) returns (rs: seq<Relation>)
    ensures rs == AbsorbAll(env, all)
  {
    var seen: map<Key, nat> := map[];
    rs := [];
    for i := 0 to |all|
      invariant rs == AbsorbAll(env, all[..i]) && TableFor(env, rs, seen)
    {
      AbsorbNext(env, all, i);
      rs, seen := AbsorbOne(env, rs, seen, all[i]);
    }
    assert all[..|all|] == all;
  }

  method MergeDirectContext(env: Env, previous: seq<Relation>, current: seq<Relation>) returns (r: seq<Relation>)
    ensures r == MergeContexts(env, previous, current)
  {
    var rs := AbsorbEach(env, FirstEight(current) + FirstEight(previous));
    r := Cut(env, rs);
  }
}
