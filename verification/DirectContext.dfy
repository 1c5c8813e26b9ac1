/**
 Merging two lists of captured relations of a post. Relations with the same stable key become
 one, whose target keeps the freshest captured body; then at most eight relations are retained.

 Timestamp parsing, URL canonicalisation and white-space trimming are parameters: every result
 holds for all of them. The merge key is a tuple of its parts.
 */
module DirectContext {
  import opened Common

  const LIMIT: nat := 8

  datatype ContextObject = ContextObject(
    kind: string,
    id: string,
    permalink: string,
    author: string,
    text: string,
    hasMedia: bool,
    availability: string,
    captureReason: string,
    evidenceOrigin: string,
    capturedAt: string)

  datatype Relation = Relation(
    kind: string,
    actor: string,
    actorUrl: string,
    observedText: string,
    matchBasis: string,
    omittedCommentCount: int,
    commentReadErrorCount: int,
    provenance: string,
    capturedAt: string,
    target: ContextObject,
    parent: Option<ContextObject>)

  datatype Env = Env(
    parseTime: string -> Option<int>,
    statusOfUrl: string -> string,     // the status id that an X permalink names, or empty
    isStatusId: string -> bool,
    trim: string -> string)

  function Identity(env: Env, o: ContextObject): string {
    if o.kind == "post" then
      if o.id != "" then
        var id := TrimPrefix(o.id, "x:status:");
        if env.isStatusId(id) then id else ""
      else env.statusOfUrl(o.permalink)
    else if o.id != "" then TrimPrefix(o.id, "urn:li:comment:")
    else o.permalink
  }

  predicate Body(o: ContextObject) { o.text != "" || o.hasMedia }

  /** The availability rules that validation imposes on a target. */
  predicate ValidBody(o: ContextObject) {
    && (o.availability == "captured" || o.availability == "partial" || o.availability == "reference_only")
    && (o.availability == "captured" ==> Body(o))
    && (o.availability == "reference_only" ==> !Body(o))
  }

  // ---- freshness -----------------------------------------------------------------------------

  /** Unknown times assert no freshness. */
  predicate Later(a: Option<int>, b: Option<int>) { a.Some? && (b.None? || a.value > b.value) }

  function Latest(a: Option<int>, b: Option<int>): Option<int> { if Later(a, b) then a else b }

  predicate Newer(env: Env, candidate: string, current: string) {
    Later(env.parseTime(candidate), env.parseTime(current))
  }

  // ---- merging -------------------------------------------------------------------------------

  /** An object with a body but no time of its own takes the relation's time. */
  function Stamped(o: ContextObject, capturedAt: string): ContextObject {
    if o.capturedAt == "" && Body(o) then o.(capturedAt := capturedAt) else o
  }

  function Normal(v: Relation): Relation {
    v.(target := Stamped(v.target, v.capturedAt),
       parent := if v.parent.Some? then Some(Stamped(v.parent.value, v.capturedAt)) else None)
  }

  datatype Key =
    | Stable(kind: string, actor: string, identity: string)
    | Loose(kind: string, actor: string, observedText: string, author: string, text: string)

  function KeyOf(env: Env, v: Relation): Key {
    var identity := Identity(env, v.target);
    var actor := if v.actorUrl == "" then v.actor else v.actorUrl;
    if identity != "" then Stable(v.kind, actor, identity)
    else Loose(v.kind, actor, v.observedText, v.target.author, v.target.text)
  }

  function MergeObject(env: Env, previous: ContextObject, current: ContextObject): ContextObject {
    var identity := Identity(env, current);
    if identity == "" || identity != Identity(env, previous) then current
    else if Body(previous) && Newer(env, previous.capturedAt, current.capturedAt) then previous
    else if (current.availability == "reference_only" || current.availability == "partial") && !Body(current) && Body(previous)
    then previous
    else current
  }

  function MergeParent(env: Env, previous: Option<ContextObject>, current: Option<ContextObject>): Option<ContextObject> {
    if previous.None? then current
    else if current.None? then previous
    else Some(MergeObject(env, previous.value, current.value))
  }

  /** A later arrival with the same stable key; the fresher relation keeps its own fields. */
  function Combine(env: Env, held: Relation, value: Relation): Relation {
    var fresher := Newer(env, value.capturedAt, held.capturedAt);
    var base := if fresher then value else held;
    var other := if fresher then held else value;
    base.(target := MergeObject(env, other.target, base.target), parent := MergeParent(env, other.parent, base.parent))
  }

  /** The index of the first relation with a key, or the length. */
  function Find(env: Env, rs: seq<Relation>, key: Key): (i: nat)
    ensures i <= |rs| && (i < |rs| ==> KeyOf(env, rs[i]) == key) && forall j :: 0 <= j < i ==> KeyOf(env, rs[j]) != key
  {
    if rs == [] then 0 else if KeyOf(env, rs[0]) == key then 0 else
      var i := Find(env, rs[1..], key);
      assert forall j :: 0 < j <= i && j < |rs| ==> rs[j] == rs[1..][j - 1];
      1 + i
  }

  function Absorb(env: Env, rs: seq<Relation>, v: Relation): seq<Relation> {
    var value := Normal(v);
    var i := Find(env, rs, KeyOf(env, value));
    if i == |rs| then rs + [value]
    else if KeyOf(env, value).Stable? then rs[i := Combine(env, rs[i], value)]
    else rs
  }

  function AbsorbAll(env: Env, vs: seq<Relation>): seq<Relation> {
    if vs == [] then [] else Absorb(env, AbsorbAll(env, vs[..|vs| - 1]), vs[|vs| - 1])
  }

  function FirstEight(vs: seq<Relation>): seq<Relation> { if |vs| > LIMIT then vs[..LIMIT] else vs }

  /** Everything that the merge looks at, in the order it does: current before previous. */
  function Inputs(previous: seq<Relation>, current: seq<Relation>): seq<Relation> {
    FirstEight(current) + FirstEight(previous)
  }

  // ---- what the merged list means ----------------------------------------------------------------

  predicate Distinct(env: Env, rs: seq<Relation>) {
    forall i, j :: 0 <= i < j < |rs| ==> KeyOf(env, rs[i]) != KeyOf(env, rs[j])
  }

  /** Some input with this key brought a body. */
  predicate BodySeen(env: Env, vs: seq<Relation>, key: Key) {
    exists i :: 0 <= i < |vs| && KeyOf(env, vs[i]) == key && Body(vs[i].target)
  }

  predicate KeySeen(env: Env, vs: seq<Relation>, key: Key) {
    exists i :: 0 <= i < |vs| && KeyOf(env, vs[i]) == key
  }

  predicate ParentSeen(env: Env, vs: seq<Relation>, key: Key) {
    exists i :: 0 <= i < |vs| && KeyOf(env, vs[i]) == key && vs[i].parent.Some?
  }

  /** When an input's body was captured, as far as it is known. */
  function BodyTime(env: Env, v: Relation): Option<int> { env.parseTime(Normal(v).target.capturedAt) }

  /** The latest known capture time among the bodies that came with this key. */
  function LatestBody(env: Env, vs: seq<Relation>, key: Key): Option<int> {
    if vs == [] then None else
      var v := vs[|vs| - 1];
      var rest := LatestBody(env, vs[..|vs| - 1], key);
      if KeyOf(env, v) == key && Body(v.target) then Latest(BodyTime(env, v), rest) else rest
  }

  predicate ValidTargets(vs: seq<Relation>) { forall i :: 0 <= i < |vs| ==> ValidBody(vs[i].target) }

  /** One merged relation against the inputs that share its key. */
  predicate Represents(env: Env, vs: seq<Relation>, r: Relation) {
    var key := KeyOf(env, r);
    key.Stable? ==>
      && (Body(r.target) <==> BodySeen(env, vs, key))
      && (Body(r.target) ==> env.parseTime(r.target.capturedAt) == LatestBody(env, vs, key))
      && (r.parent.Some? <==> ParentSeen(env, vs, key))
      && (exists i :: 0 <= i < |vs| && KeyOf(env, vs[i]) == key && r.target == Normal(vs[i]).target)
  }

  lemma NormalKeepsKey(env: Env, v: Relation)
    ensures KeyOf(env, Normal(v)) == KeyOf(env, v) && Body(Normal(v).target) == Body(v.target)
    ensures Normal(v).parent.Some? <==> v.parent.Some?
    ensures ValidBody(v.target) ==> ValidBody(Normal(v).target)
  {
  }

  /** Of two valid targets with one identity, the merge keeps a body if there is one, and the later one. */
  lemma MergeObjectKeepsLatestBody(env: Env, a: ContextObject, b: ContextObject)
    requires Identity(env, a) == Identity(env, b) != "" && ValidBody(a) && ValidBody(b)
    ensures var m := MergeObject(env, a, b);
            && (m == a || m == b)
            && (Body(m) <==> Body(a) || Body(b))
            && (Body(a) && Body(b) ==>
                  env.parseTime(m.capturedAt) == Latest(env.parseTime(a.capturedAt), env.parseTime(b.capturedAt)))
            && m == if Body(a) && (!Body(b) || Later(env.parseTime(a.capturedAt), env.parseTime(b.capturedAt))) then a else b
  {
  }

  lemma LatestIsCommutative(a: Option<int>, b: Option<int>, c: Option<int>)
    ensures Latest(a, b) == Latest(b, a)
    ensures Latest(a, Latest(b, c)) == Latest(Latest(a, b), c)
  {
  }

  lemma CombineKeepsKey(env: Env, held: Relation, value: Relation)
    requires KeyOf(env, held) == KeyOf(env, value) && KeyOf(env, value).Stable?
    ensures KeyOf(env, Combine(env, held, value)) == KeyOf(env, value)
  {
  }

  /** Seeing one more input. */
  lemma SeenMore(env: Env, vs: seq<Relation>, v: Relation, key: Key)
    ensures KeySeen(env, vs + [v], key) <==> KeySeen(env, vs, key) || KeyOf(env, v) == key
    ensures BodySeen(env, vs + [v], key) <==> BodySeen(env, vs, key) || (KeyOf(env, v) == key && Body(v.target))
    ensures ParentSeen(env, vs + [v], key) <==> ParentSeen(env, vs, key) || (KeyOf(env, v) == key && v.parent.Some?)
    ensures LatestBody(env, vs + [v], key) ==
            if KeyOf(env, v) == key && Body(v.target) then Latest(BodyTime(env, v), LatestBody(env, vs, key))
            else LatestBody(env, vs, key)
  {
    var all := vs + [v];
    assert all[..|all| - 1] == vs && all[|vs|] == v;
    assert forall i :: 0 <= i < |vs| ==> all[i] == vs[i];
  }

  lemma {:induction false} NoBodyNoTime(env: Env, vs: seq<Relation>, key: Key)
    requires !BodySeen(env, vs, key)
    ensures LatestBody(env, vs, key) == None
  {
    if vs == [] {
    } else {
      var rest := vs[..|vs| - 1];
      assert vs == rest + [vs[|vs| - 1]];
      SeenMore(env, rest, vs[|vs| - 1], key);
      NoBodyNoTime(env, rest, key);
    }
  }

  /** The merged list, against the inputs absorbed so far. */
  ghost predicate MergeInv(env: Env, vs: seq<Relation>, rs: seq<Relation>) {
    && Distinct(env, rs)
    && (forall i :: 0 <= i < |rs| ==> Represents(env, vs, rs[i]))
    && (forall key :: KeySeen(env, vs, key) <==> KeySeen(env, rs, key))
  }

  lemma NewKeyRepresents(env: Env, vs: seq<Relation>, v: Relation)
    requires !KeySeen(env, vs, KeyOf(env, v))
    ensures Represents(env, vs + [v], Normal(v))
  {
    var key := KeyOf(env, v);
    NormalKeepsKey(env, v);
    assert !BodySeen(env, vs, key) && !ParentSeen(env, vs, key);
    NoBodyNoTime(env, vs, key);
    SeenMore(env, vs, v, key);
    assert (vs + [v])[|vs|] == v;
  }

  lemma CombinedRepresents(env: Env, vs: seq<Relation>, held: Relation, v: Relation)
    requires ValidTargets(vs) && ValidBody(v.target)
    requires Represents(env, vs, held) && KeyOf(env, held) == KeyOf(env, v) && KeyOf(env, v).Stable?
    ensures Represents(env, vs + [v], Combine(env, held, Normal(v)))
  {
    var key, value := KeyOf(env, v), Normal(v);
    NormalKeepsKey(env, v);
    CombineKeepsKey(env, held, value);
    SeenMore(env, vs, v, key);
    var i :| 0 <= i < |vs| && KeyOf(env, vs[i]) == key && held.target == Normal(vs[i]).target;
    NormalKeepsKey(env, vs[i]);
    MergeObjectKeepsLatestBody(env, held.target, value.target);
    MergeObjectKeepsLatestBody(env, value.target, held.target);
    LatestIsCommutative(env.parseTime(held.target.capturedAt), env.parseTime(value.target.capturedAt), None);
    if !Body(held.target) { NoBodyNoTime(env, vs, key); }
    assert (vs + [v])[i] == vs[i] && (vs + [v])[|vs|] == v;
  }

  /** A relation whose key is not the new input's is represented as before. */
  lemma OtherStillRepresents(env: Env, vs: seq<Relation>, v: Relation, r: Relation)
    requires Represents(env, vs, r) && KeyOf(env, r) != KeyOf(env, v)
    ensures Represents(env, vs + [v], r)
  {
    SeenMore(env, vs, v, KeyOf(env, r));
    if KeyOf(env, r).Stable? {
      var i :| 0 <= i < |vs| && KeyOf(env, vs[i]) == KeyOf(env, r) && r.target == Normal(vs[i]).target;
      assert (vs + [v])[i] == vs[i];
    }
  }

  /** Absorbing changes no key, and adds one exactly when it is new. */
  lemma AbsorbKeepsKeys(env: Env, rs: seq<Relation>, v: Relation)
    ensures var rs' := Absorb(env, rs, v);
            && |rs| <= |rs'| <= |rs| + 1
            && (forall j :: 0 <= j < |rs| ==> KeyOf(env, rs'[j]) == KeyOf(env, rs[j]))
            && (|rs'| > |rs| <==> !KeySeen(env, rs, KeyOf(env, v)))
            && (|rs'| > |rs| ==> KeyOf(env, rs'[|rs|]) == KeyOf(env, v))
  {
    NormalKeepsKey(env, v);
    var i := Find(env, rs, KeyOf(env, v));
    if i < |rs| && KeyOf(env, v).Stable? { CombineKeepsKey(env, rs[i], Normal(v)); }
  }

  lemma KeysAfterAbsorb(env: Env, vs: seq<Relation>, rs: seq<Relation>, v: Relation, rs': seq<Relation>, key: Key)
    requires KeySeen(env, vs, key) <==> KeySeen(env, rs, key)
    requires |rs| <= |rs'| <= |rs| + 1
    requires forall j :: 0 <= j < |rs| ==> KeyOf(env, rs'[j]) == KeyOf(env, rs[j])
    requires |rs'| > |rs| <==> !KeySeen(env, rs, KeyOf(env, v))
    requires |rs'| > |rs| ==> KeyOf(env, rs'[|rs|]) == KeyOf(env, v)
    ensures KeySeen(env, vs + [v], key) <==> KeySeen(env, rs', key)
  {
    SeenMore(env, vs, v, key);
    if KeySeen(env, rs, key) {
      var i :| 0 <= i < |rs| && KeyOf(env, rs[i]) == key;
      assert KeyOf(env, rs'[i]) == key;
    }
  }

  lemma AbsorbKeepsInv(env: Env, vs: seq<Relation>, rs: seq<Relation>, v: Relation)
    requires ValidTargets(vs) && ValidBody(v.target) && MergeInv(env, vs, rs)
    ensures MergeInv(env, vs + [v], Absorb(env, rs, v))
  {
    var key := KeyOf(env, v);
    NormalKeepsKey(env, v);
    var i := Find(env, rs, key);
    var rs' := Absorb(env, rs, v);
    AbsorbKeepsKeys(env, rs, v);
    forall k ensures KeySeen(env, vs + [v], k) <==> KeySeen(env, rs', k) { KeysAfterAbsorb(env, vs, rs, v, rs', k); }
    forall j | 0 <= j < |rs'| ensures Represents(env, vs + [v], rs'[j]) {
      if j == i {
        if i == |rs| { NewKeyRepresents(env, vs, v); }
        else if key.Stable? { CombinedRepresents(env, vs, rs[i], v); }
      } else {
        OtherStillRepresents(env, vs, v, rs[j]);
      }
    }
  }

  lemma {:induction false} AbsorbAllRepresents(env: Env, vs: seq<Relation>)
    requires ValidTargets(vs)
    ensures MergeInv(env, vs, AbsorbAll(env, vs))
  {
    if vs == [] {
    } else {
      var rest := vs[..|vs| - 1];
      assert vs == rest + [vs[|vs| - 1]];
      AbsorbAllRepresents(env, rest);
      AbsorbKeepsInv(env, rest, AbsorbAll(env, rest), vs[|vs| - 1]);
    }
  }

  /** Exactly one relation has the key, and it represents the inputs with that key. */
  predicate HeldOnce(env: Env, vs: seq<Relation>, rs: seq<Relation>, key: Key) {
    exists i :: 0 <= i < |rs| && KeyOf(env, rs[i]) == key && Represents(env, vs, rs[i])
      && forall j :: 0 <= j < |rs| && j != i ==> KeyOf(env, rs[j]) != key
  }

  lemma OneRelationPerKey(env: Env, vs: seq<Relation>, rs: seq<Relation>, key: Key)
    requires MergeInv(env, vs, rs) && KeySeen(env, vs, key)
    ensures HeldOnce(env, vs, rs, key)
  {
    assert KeySeen(env, rs, key);
  }

  lemma MemberRepresents(env: Env, vs: seq<Relation>, r: Relation)
    requires ValidTargets(vs) && r in AbsorbAll(env, vs)
    ensures Represents(env, vs, r)
  {
    AbsorbAllRepresents(env, vs);
  }

  /**
   Before the capacity cut: every stable key of the inputs has one merged relation; its target has
   a body exactly when some input with that key had one, it is an input's own target, and it
   carries the latest known capture time, whatever the order of arrivals and swaps.
   */
  lemma MergedTargetKeepsFreshestBody(env: Env, vs: seq<Relation>, key: Key)
    requires ValidTargets(vs) && key.Stable? && KeySeen(env, vs, key)
    ensures HeldOnce(env, vs, AbsorbAll(env, vs), key)
  {
    AbsorbAllRepresents(env, vs);
    OneRelationPerKey(env, vs, AbsorbAll(env, vs), key);
  }

  lemma {:induction false} LatestOfConcat(env: Env, a: seq<Relation>, b: seq<Relation>, key: Key)
    ensures LatestBody(env, a + b, key) == Latest(LatestBody(env, a, key), LatestBody(env, b, key))
  {
    if b == [] {
      assert a + b == a;
    } else {
      var b', v := b[..|b| - 1], b[|b| - 1];
      assert a + b == (a + b') + [v] && b == b' + [v];
      LatestOfConcat(env, a, b', key);
      SeenMore(env, a + b', v, key);
      SeenMore(env, b', v, key);
      LatestIsCommutative(BodyTime(env, v), LatestBody(env, a, key), LatestBody(env, b', key));
      LatestIsCommutative(LatestBody(env, a, key), BodyTime(env, v), LatestBody(env, b', key));
    }
  }

  lemma SeenInConcat(env: Env, a: seq<Relation>, b: seq<Relation>, key: Key)
    ensures BodySeen(env, a + b, key) <==> BodySeen(env, a, key) || BodySeen(env, b, key)
  {
    assert forall i :: 0 <= i < |a| ==> (a + b)[i] == a[i];
    assert forall i :: 0 <= i < |b| ==> (a + b)[|a| + i] == b[i];
  }

  /** Exchanging the two lists changes neither whether a key has a body nor when it was captured. */
  lemma ArrivalOrderIsIrrelevant(env: Env, a: seq<Relation>, b: seq<Relation>, r: Relation, q: Relation)
    requires ValidTargets(a + b) && ValidTargets(b + a)
    requires r in AbsorbAll(env, a + b) && q in AbsorbAll(env, b + a)
    requires KeyOf(env, r) == KeyOf(env, q) && KeyOf(env, r).Stable?
    ensures Body(r.target) == Body(q.target)
    ensures Body(r.target) ==> env.parseTime(r.target.capturedAt) == env.parseTime(q.target.capturedAt)
  {
    var key := KeyOf(env, r);
    MemberRepresents(env, a + b, r);
    MemberRepresents(env, b + a, q);
    LatestOfConcat(env, a, b, key);
    LatestOfConcat(env, b, a, key);
    SeenInConcat(env, a, b, key);
    SeenInConcat(env, b, a, key);
    LatestIsCommutative(LatestBody(env, a, key), LatestBody(env, b, key), None);
  }
}
