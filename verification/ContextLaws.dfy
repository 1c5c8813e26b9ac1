/**
 Whose words a merged relation keeps: its own fields come from the freshest arrival, its target and
 parent from the freshest body; and when two relations are the same one.
 */
module ContextLaws {
  import opened Common
  import opened DirectContext

  // ---- the same relation ------------------------------------------------------------------------------

  function ActorOf(v: Relation): string { if v.actorUrl != "" then v.actorUrl else v.actor }

  /** Relations to identified targets are the same exactly for one kind, actor and target; others also need the same words. */
  lemma SameRelationIff(env: Env, v: Relation, w: Relation)
    ensures var i, j := Identity(env, v.target), Identity(env, w.target);
      KeyOf(env, v) == KeyOf(env, w) <==>
        && v.kind == w.kind && ActorOf(v) == ActorOf(w) && i == j
        && (i == "" ==> v.observedText == w.observedText && v.target.author == w.target.author && v.target.text == w.target.text)
    ensures KeyOf(env, v).Stable? <==> Identity(env, v.target) != ""
  {
  }

  /** A comment is named by its id, with or without the prefix, and by its permalink only where it has none. */
  lemma CommentIdentity(env: Env, o: ContextObject, x: string)
    requires o.kind != "post"
    ensures x != "" && !("urn:li:comment:" <= x) ==>
              Identity(env, o.(id := x)) == Identity(env, o.(id := "urn:li:comment:" + x)) == x
    ensures o.id == "" ==> Identity(env, o) == o.permalink
  {
    var full := "urn:li:comment:" + x;
    assert "urn:li:comment:" <= full && full[|"urn:li:comment:"|..] == x;
  }

  /** A post is named by a status id, with or without the prefix, and by the status of its permalink only where it has no id. */
  lemma PostIdentity(env: Env, o: ContextObject, x: string)
    requires o.kind == "post"
    ensures x != "" && !("x:status:" <= x) ==>
              Identity(env, o.(id := x)) == Identity(env, o.(id := "x:status:" + x)) == if env.isStatusId(x) then x else ""
    ensures o.id == "" ==> Identity(env, o) == env.statusOfUrl(o.permalink)
  {
    var full := "x:status:" + x;
    assert "x:status:" <= full && full[|"x:status:"|..] == x;
  }

  /** An object with words or media but no capture time takes the relation's; nothing else changes. */
  lemma MissingTimesAreFilled(v: Relation)
    ensures var t, n := v.target, Normal(v);
      && n.target == t.(capturedAt := if t.capturedAt == "" && (t.text != "" || t.hasMedia) then v.capturedAt else t.capturedAt)
      && (n.parent.Some? <==> v.parent.Some?)
      && (v.parent.Some? ==>
            var q := v.parent.value;
            n.parent.value == q.(capturedAt := if q.capturedAt == "" && (q.text != "" || q.hasMedia) then v.capturedAt else q.capturedAt))
      && n.(target := t, parent := v.parent) == v
  {
  }

  /** The merge looks at the first eight of the current list and then at the first eight of the previous one. */
  lemma FirstEightOfEach(previous: seq<Relation>, current: seq<Relation>)
    ensures var c, p := if |current| > 8 then 8 else |current|, if |previous| > 8 then 8 else |previous|;
            Inputs(previous, current) == current[..c] + previous[..p]
  {
    assert |current| <= 8 ==> current[..|current|] == current;
    assert |previous| <= 8 ==> previous[..|previous|] == previous;
  }

  /** Validation ties availability to the body: captured has one, reference-only has none. */
  lemma ValidBodies(o: ContextObject)
    ensures ValidBody(o) <==>
      || (o.availability == "captured" && (o.text != "" || o.hasMedia))
      || o.availability == "partial"
      || (o.availability == "reference_only" && o.text == "" && !o.hasMedia)
  {
  }

  /** Words or media that came with a key are never merged away, and none are invented. */
  lemma WordsAreNeverLost(env: Env, vs: seq<Relation>, r: Relation)
    requires ValidTargets(vs) && r in AbsorbAll(env, vs) && KeyOf(env, r).Stable?
    ensures (r.target.text != "" || r.target.hasMedia) <==>
            exists i :: 0 <= i < |vs| && KeyOf(env, vs[i]) == KeyOf(env, r) && (vs[i].target.text != "" || vs[i].target.hasMedia)
  {
    MemberRepresents(env, vs, r);
  }

  // ---- own fields ---------------------------------------------------------------------------------------

  /** Everything but target and parent. */
  predicate SameOwnFields(a: Relation, b: Relation) { a == b.(target := a.target, parent := a.parent) }

  function TimeOf(env: Env, v: Relation): Option<int> { env.parseTime(v.capturedAt) }

  /** The arrival i is the first of the latest arrivals with its key. */
  predicate FirstLatest(env: Env, vs: seq<Relation>, i: nat) {
    && i < |vs|
    && (forall j :: 0 <= j < |vs| && KeyOf(env, vs[j]) == KeyOf(env, vs[i]) ==> !Later(TimeOf(env, vs[j]), TimeOf(env, vs[i])))
    && (forall j :: 0 <= j < i && KeyOf(env, vs[j]) == KeyOf(env, vs[i]) ==> Later(TimeOf(env, vs[i]), TimeOf(env, vs[j])))
  }

  predicate FirstArrival(env: Env, vs: seq<Relation>, i: nat) {
    i < |vs| && forall j :: 0 <= j < i ==> KeyOf(env, vs[j]) != KeyOf(env, vs[i])
  }

  /** Whose fields a merged relation carries. */
  predicate Owned(env: Env, vs: seq<Relation>, r: Relation) {
    if KeyOf(env, r).Stable?
    then exists i :: 0 <= i < |vs| && KeyOf(env, vs[i]) == KeyOf(env, r) && FirstLatest(env, vs, i) && SameOwnFields(r, vs[i])
    else exists i :: 0 <= i < |vs| && KeyOf(env, vs[i]) == KeyOf(env, r) && FirstArrival(env, vs, i) && r == Normal(vs[i])
  }

  ghost predicate OwnInv(env: Env, vs: seq<Relation>, rs: seq<Relation>) {
    && (forall i :: 0 <= i < |rs| ==> Owned(env, vs, rs[i]))
    && (forall key :: KeySeen(env, vs, key) <==> KeySeen(env, rs, key))
  }

  lemma NormalKeepsOwnFields(v: Relation)
    ensures SameOwnFields(Normal(v), v)
  {
  }

  /** Of two arrivals with one key the strictly later one keeps its own fields, else the one that was there. */
  lemma CombineKeepsFresherFields(env: Env, held: Relation, value: Relation)
    ensures if Later(TimeOf(env, value), TimeOf(env, held)) then SameOwnFields(Combine(env, held, value), value)
            else SameOwnFields(Combine(env, held, value), held)
  {
  }

  /** The parent of a merged relation: the only one there is, or of one parent the fresher body, else that of the fresher relation. */
  lemma CombinedParent(env: Env, held: Relation, value: Relation)
    ensures var r := Combine(env, held, value);
      var fresher, other := if Later(TimeOf(env, value), TimeOf(env, held)) then value else held,
                            if Later(TimeOf(env, value), TimeOf(env, held)) then held else value;
      && (held.parent.None? ==> r.parent == value.parent) && (value.parent.None? ==> r.parent == held.parent)
      && (fresher.parent.Some? && other.parent.Some? ==>
            r.parent == Some(MergeObject(env, other.parent.value, fresher.parent.value)))
      && r.target == MergeObject(env, other.target, fresher.target)
  {
  }

  /** Objects without a common identity are not merged: the fresher relation's is kept. */
  lemma StrangersAreNotMerged(env: Env, previous: ContextObject, current: ContextObject)
    requires Identity(env, current) == "" || Identity(env, previous) != Identity(env, current)
    ensures MergeObject(env, previous, current) == current
  {
  }

  lemma NewcomerIsFirst(env: Env, vs: seq<Relation>, v: Relation)
    requires !KeySeen(env, vs, KeyOf(env, v))
    ensures Owned(env, vs + [v], Normal(v))
  {
    var all := vs + [v];
    NormalKeepsKey(env, v);
    NormalKeepsOwnFields(v);
    assert all[|vs|] == v && forall j :: 0 <= j < |vs| ==> all[j] == vs[j];
    assert forall j :: 0 <= j < |vs| ==> KeyOf(env, all[j]) != KeyOf(env, v);
    assert FirstLatest(env, all, |vs|) && FirstArrival(env, all, |vs|);
  }

  lemma OthersStayOwned(env: Env, vs: seq<Relation>, v: Relation, r: Relation)
    requires Owned(env, vs, r) && (KeyOf(env, r) != KeyOf(env, v) || !KeyOf(env, r).Stable?)
    ensures Owned(env, vs + [v], r)
  {
    var all := vs + [v];
    assert all[|vs|] == v && forall j :: 0 <= j < |vs| ==> all[j] == vs[j];
    if KeyOf(env, r).Stable? {
      var i :| 0 <= i < |vs| && KeyOf(env, vs[i]) == KeyOf(env, r) && FirstLatest(env, vs, i) && SameOwnFields(r, vs[i]);
      assert FirstLatest(env, all, i);
    } else {
      var i :| 0 <= i < |vs| && KeyOf(env, vs[i]) == KeyOf(env, r) && FirstArrival(env, vs, i) && r == Normal(vs[i]);
      assert FirstArrival(env, all, i);
    }
  }

  /** One more arrival takes the lead exactly if it is strictly later than the leader. */
  lemma LeaderAfter(env: Env, vs: seq<Relation>, v: Relation, i: nat)
    requires FirstLatest(env, vs, i) && KeyOf(env, vs[i]) == KeyOf(env, v)
    ensures FirstLatest(env, vs + [v], if Later(TimeOf(env, v), TimeOf(env, vs[i])) then |vs| else i)
  {
    var all := vs + [v];
    assert all[|vs|] == v && forall j :: 0 <= j < |vs| ==> all[j] == vs[j];
  }

  lemma OwnFieldsCarryOver(env: Env, r: Relation, held: Relation, v: Relation)
    requires SameOwnFields(held, v)
    ensures SameOwnFields(r, held) ==> SameOwnFields(r, v)
    ensures TimeOf(env, held) == TimeOf(env, v)
  {
  }

  lemma CombinedIsOwned(env: Env, vs: seq<Relation>, v: Relation, held: Relation)
    requires Owned(env, vs, held) && KeyOf(env, held) == KeyOf(env, v) && KeyOf(env, v).Stable?
    ensures Owned(env, vs + [v], Combine(env, held, Normal(v)))
  {
    var all, r, value := vs + [v], Combine(env, held, Normal(v)), Normal(v);
    var i :| 0 <= i < |vs| && KeyOf(env, vs[i]) == KeyOf(env, held) && FirstLatest(env, vs, i) && SameOwnFields(held, vs[i]);
    assert KeyOf(env, r) == KeyOf(env, v) by { NormalKeepsKey(env, v); CombineKeepsKey(env, held, value); }
    assert SameOwnFields(r, if Later(TimeOf(env, value), TimeOf(env, held)) then value else held) by { CombineKeepsFresherFields(env, held, value); }
    NormalKeepsOwnFields(v);
    OwnFieldsCarryOver(env, r, value, v);
    OwnFieldsCarryOver(env, r, held, vs[i]);
    LeaderAfter(env, vs, v, i);
    var k := if Later(TimeOf(env, v), TimeOf(env, vs[i])) then |vs| else i;
    assert all[k] == (if k == |vs| then v else vs[i]);
  }

  lemma AbsorbKeepsOwned(env: Env, vs: seq<Relation>, rs: seq<Relation>, v: Relation)
    requires OwnInv(env, vs, rs) && Distinct(env, rs)
    ensures OwnInv(env, vs + [v], Absorb(env, rs, v))
  {
    var key, rs' := KeyOf(env, v), Absorb(env, rs, v);
    NormalKeepsKey(env, v);
    var i := Find(env, rs, key);
    AbsorbKeepsKeys(env, rs, v);
    forall k ensures KeySeen(env, vs + [v], k) <==> KeySeen(env, rs', k) { KeysAfterAbsorb(env, vs, rs, v, rs', k); }
    forall j | 0 <= j < |rs'| ensures Owned(env, vs + [v], rs'[j]) {
      if j == i && i == |rs| { NewcomerIsFirst(env, vs, v); }
      else if j == i && key.Stable? { CombinedIsOwned(env, vs, v, rs[i]); }
      else { OthersStayOwned(env, vs, v, rs[j]); }
    }
  }

  lemma {:induction false} AbsorbAllIsOwned(env: Env, vs: seq<Relation>)
    ensures OwnInv(env, vs, AbsorbAll(env, vs)) && Distinct(env, AbsorbAll(env, vs))
  {
    if vs == [] {
    } else {
      var rest, v := vs[..|vs| - 1], vs[|vs| - 1];
      assert vs == rest + [v];
      AbsorbAllIsOwned(env, rest);
      AbsorbKeepsOwned(env, rest, AbsorbAll(env, rest), v);
      AbsorbKeepsKeys(env, AbsorbAll(env, rest), v);
    }
  }

  /**
   The own fields of a merged relation are those of the first arrival among the latest with its key;
   a relation to an unidentified target is its first arrival in full.
   */
  lemma OwnFieldsAreFirstLatest(env: Env, vs: seq<Relation>, r: Relation)
    requires r in AbsorbAll(env, vs)
    ensures Owned(env, vs, r)
  {
    AbsorbAllIsOwned(env, vs);
  }
}
