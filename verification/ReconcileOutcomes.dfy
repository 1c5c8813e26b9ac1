/**
 What reconciliation decides and keeps, said about the captures themselves: which signatures are
 ambiguous, whose evidence key becomes the common one, and which of two captures' contents wins.
 */
module ReconcileOutcomes {
  import opened Common
  import opened BlockDetails
  import opened Reconcile
  import opened ReconcileLaws

  // ---- signatures and identities --------------------------------------------------------------------

  /** Anonymous captures and texts of fewer than 80 bytes have no signature; all others have one. */
  lemma SignedIff(n: Norms, b: Block)
    ensures Signature(n, b) != "" <==> n.author(b.author) != "" && |n.text(b.text)| >= 80
    ensures Signature(n, b) == "" ==> forall bs :: Reconciled(n, bs, b) == b
  {
  }

  /** Platform ids are the same up to case and blanks around them; permalinks up to blanks, and only without a platform id. */
  lemma SameIdentityIff(n: Norms, a: Block, b: Block)
    ensures var p, q := n.trim(a.platformId), n.trim(b.platformId);
      StableIdentity(n, a) == StableIdentity(n, b) <==>
        || (p != "" && q != "" && n.lower(p) == n.lower(q))
        || (p == "" && q == "" && n.trim(a.permalink) == n.trim(b.permalink))
    ensures StableIdentity(n, a) == "" <==> n.trim(a.platformId) == "" && n.trim(a.permalink) == ""
  {
    var p, q, k, l := n.lower(n.trim(a.platformId)), n.lower(n.trim(b.platformId)), n.trim(a.permalink), n.trim(b.permalink);
    KindsDiffer(p, l);
    KindsDiffer(q, k);
    SamePrefix("platform:", p, q);
    SamePrefix("permalink:", k, l);
  }

  lemma SamePrefix(prefix: string, a: string, b: string)
    ensures prefix + a == prefix + b <==> a == b
  {
    assert (prefix + a)[|prefix|..] == a && (prefix + b)[|prefix|..] == b;
  }

  // ---- ambiguity ------------------------------------------------------------------------------------------

  predicate Member(n: Norms, bs: seq<Block>, sig: string, i: nat) { i < |bs| && Signature(n, bs[i]) == sig }

  /** A publication time that is known and not marked as an estimate. */
  predicate TimeKnown(n: Norms, b: Block, t: string) {
    && b.publishedAt.Some? && n.time(b.publishedAt.value) == t != ""
    && !("timestampEstimated" in b.presentation && b.presentation["timestampEstimated"] == Flag(true))
  }

  predicate KindKnown(n: Norms, b: Block, k: string) { n.lower(n.trim(b.contentKind)) == k != "" }

  /** Both captures know their kind or both know their time, and they differ. */
  ghost predicate Clash(n: Norms, a: Block, b: Block) {
    || (exists k, l :: KindKnown(n, a, k) && KindKnown(n, b, l) && k != l)
    || (exists t, u :: TimeKnown(n, a, t) && TimeKnown(n, b, u) && t != u)
  }

  lemma CompatibleIff(n: Norms, a: Block, b: Block)
    ensures Compatible(n, a, b) <==> !Clash(n, a, b)
  {
    var k, l := n.lower(n.trim(a.contentKind)), n.lower(n.trim(b.contentKind));
    assert k != "" ==> KindKnown(n, a, k);
    assert l != "" ==> KindKnown(n, b, l);
    assert PublishedAt(n, a) != "" ==> TimeKnown(n, a, PublishedAt(n, a));
    assert PublishedAt(n, b) != "" ==> TimeKnown(n, b, PublishedAt(n, b));
    assert forall t :: TimeKnown(n, a, t) ==> t == PublishedAt(n, a);
    assert forall t :: TimeKnown(n, b, t) ==> t == PublishedAt(n, b);
  }

  /** The capture f is the first of its signature. */
  predicate IsFirst(n: Norms, bs: seq<Block>, sig: string, f: nat) {
    Member(n, bs, sig, f) && forall i :: 0 <= i < f ==> Signature(n, bs[i]) != sig
  }

  /** A later capture clashes with the first one of the signature. */
  ghost predicate ClashesWithFirst(n: Norms, bs: seq<Block>, sig: string) {
    exists f: nat, j: nat :: IsFirst(n, bs, sig, f) && f < j && Member(n, bs, sig, j) && Clash(n, bs[f], bs[j])
  }

  predicate TwoIdentities(n: Norms, bs: seq<Block>, sig: string) {
    exists i, j :: 0 <= i < |bs| && 0 <= j < |bs| && Signature(n, bs[i]) == sig && Signature(n, bs[j]) == sig
      && StableIdentity(n, bs[i]) != "" && StableIdentity(n, bs[j]) != "" && StableIdentity(n, bs[i]) != StableIdentity(n, bs[j])
  }

  predicate Unnamed(n: Norms, bs: seq<Block>, sig: string) {
    exists i :: 0 <= i < |bs| && Signature(n, bs[i]) == sig && StableIdentity(n, bs[i]) == ""
  }

  lemma InitMembers(bs: seq<Block>)
    requires bs != []
    ensures |Init(bs)| == |bs| - 1 && forall i :: 0 <= i < |bs| - 1 ==> Init(bs)[i] == bs[i]
  {
  }

  lemma {:induction false} FirstIs(n: Norms, bs: seq<Block>, sig: string) returns (f: nat)
    ensures First(n, bs, sig).Some? ==> IsFirst(n, bs, sig, f) && First(n, bs, sig).value == bs[f]
    ensures First(n, bs, sig).None? ==> forall i :: 0 <= i < |bs| ==> Signature(n, bs[i]) != sig
  {
    if bs == [] {
      f := 0;
    } else {
      f := FirstIs(n, Init(bs), sig);
      InitMembers(bs);
      if First(n, Init(bs), sig).None? { f := |bs| - 1; }
    }
  }

  lemma FirstIsUnique(n: Norms, bs: seq<Block>, sig: string, f: nat, g: nat)
    requires IsFirst(n, bs, sig, f) && IsFirst(n, bs, sig, g)
    ensures f == g
  {
  }

  /** A clash within the earlier captures, or of the last capture with the first one. */
  lemma ClashMore(n: Norms, bs: seq<Block>, sig: string)
    requires bs != []
    ensures ClashesWithFirst(n, bs, sig) <==>
      || ClashesWithFirst(n, Init(bs), sig)
      || (Signature(n, Last(bs)) == sig && First(n, Init(bs), sig).Some? && Clash(n, First(n, Init(bs), sig).value, Last(bs)))
  {
    InitMembers(bs);
    var f := FirstIs(n, Init(bs), sig);
    if First(n, Init(bs), sig).Some? { assert IsFirst(n, bs, sig, f); }
    if ClashesWithFirst(n, bs, sig) {
      var g: nat, j: nat :| IsFirst(n, bs, sig, g) && g < j && Member(n, bs, sig, j) && Clash(n, bs[g], bs[j]);
      assert IsFirst(n, Init(bs), sig, g);
      if First(n, Init(bs), sig).Some? { FirstIsUnique(n, bs, sig, f, g); }
      if j < |bs| - 1 { assert Member(n, Init(bs), sig, j); }
    }
    if ClashesWithFirst(n, Init(bs), sig) {
      var g: nat, j: nat :| IsFirst(n, Init(bs), sig, g) && g < j && Member(n, Init(bs), sig, j) && Clash(n, Init(bs)[g], Init(bs)[j]);
      assert IsFirst(n, bs, sig, g) && Member(n, bs, sig, j);
    }
    if Signature(n, Last(bs)) == sig && First(n, Init(bs), sig).Some? && Clash(n, bs[f], Last(bs)) {
      assert IsFirst(n, bs, sig, f) && Member(n, bs, sig, |bs| - 1);
    }
  }

  lemma {:induction false} ConflictIff(n: Norms, bs: seq<Block>, sig: string)
    ensures Conflict(n, bs, sig) <==> ClashesWithFirst(n, bs, sig)
  {
    if bs == [] {
    } else {
      ConflictIff(n, Init(bs), sig);
      ClashMore(n, bs, sig);
      if First(n, Init(bs), sig).Some? { CompatibleIff(n, First(n, Init(bs), sig).value, Last(bs)); }
    }
  }

  lemma {:induction false} FallbackIff(n: Norms, bs: seq<Block>, sig: string)
    ensures Fallback(n, bs, sig) <==> Unnamed(n, bs, sig)
  {
    if bs == [] {
    } else {
      InitMembers(bs);
      FallbackIff(n, Init(bs), sig);
    }
  }

  lemma {:induction false} NativeIdOrigin(n: Norms, bs: seq<Block>, sig: string, id: string) returns (i: nat)
    requires id in NativeIds(n, bs, sig)
    ensures Member(n, bs, sig, i) && StableIdentity(n, bs[i]) == id != ""
  {
    if id in NativeIds(n, Init(bs), sig) {
      InitMembers(bs);
      i := NativeIdOrigin(n, Init(bs), sig, id);
    } else {
      i := |bs| - 1;
    }
  }

  lemma TwoMembers(s: set<string>) returns (a: string, b: string)
    requires |s| > 1
    ensures a in s && b in s && a != b
  {
    a :| a in s;
    assert |s - {a}| > 0;
    b :| b in s - {a};
  }

  lemma ManyIdentitiesIff(n: Norms, bs: seq<Block>, sig: string)
    ensures |NativeIds(n, bs, sig)| > 1 <==> TwoIdentities(n, bs, sig)
  {
    if |NativeIds(n, bs, sig)| > 1 {
      var a, b := TwoMembers(NativeIds(n, bs, sig));
      var i := NativeIdOrigin(n, bs, sig, a);
      var j := NativeIdOrigin(n, bs, sig, b);
      assert TwoIdentities(n, bs, sig);
    }
    if TwoIdentities(n, bs, sig) {
      var i, j :| 0 <= i < |bs| && 0 <= j < |bs| && Signature(n, bs[i]) == sig && Signature(n, bs[j]) == sig
        && StableIdentity(n, bs[i]) != "" && StableIdentity(n, bs[j]) != "" && StableIdentity(n, bs[i]) != StableIdentity(n, bs[j]);
      NativeIdsAre(n, bs, sig, i);
      NativeIdsAre(n, bs, sig, j);
      if |NativeIds(n, bs, sig)| <= 1 { SingletonIds(NativeIds(n, bs, sig), StableIdentity(n, bs[i]), StableIdentity(n, bs[j])); }
    }
  }

  /** No native identity at all, but captures: then some capture is unnamed. */
  lemma NoIdentityMeansUnnamed(n: Norms, bs: seq<Block>, sig: string)
    requires |NativeIds(n, bs, sig)| == 0 && ClashesWithFirst(n, bs, sig)
    ensures Unnamed(n, bs, sig)
  {
    var f: nat, j: nat :| IsFirst(n, bs, sig, f) && f < j && Member(n, bs, sig, j) && Clash(n, bs[f], bs[j]);
    if StableIdentity(n, bs[f]) != "" { NativeIdsAre(n, bs, sig, f); }
  }

  /**
   A signature is ambiguous exactly if two captures name different native identities, or a later
   capture clashes in kind or time with the first one and some capture names no identity.
   */
  lemma AmbiguousIff(n: Norms, bs: seq<Block>, sig: string)
    ensures Ambiguous(n, bs, sig) <==> TwoIdentities(n, bs, sig) || (ClashesWithFirst(n, bs, sig) && Unnamed(n, bs, sig))
  {
    ConflictIff(n, bs, sig);
    FallbackIff(n, bs, sig);
    ManyIdentitiesIff(n, bs, sig);
    if |NativeIds(n, bs, sig)| == 0 && ClashesWithFirst(n, bs, sig) { NoIdentityMeansUnnamed(n, bs, sig); }
  }

  /** All captures of such a signature are returned as they are. */
  lemma AmbiguousCapturesAreUntouched(n: Norms, bs: seq<Block>, b: Block)
    requires TwoIdentities(n, bs, Signature(n, b)) || (ClashesWithFirst(n, bs, Signature(n, b)) && Unnamed(n, bs, Signature(n, b)))
    ensures Reconciled(n, bs, b) == b
  {
    AmbiguousIff(n, bs, Signature(n, b));
  }

  // ---- the canonical identity --------------------------------------------------------------------------------

  /** An evidence key together with some id. */
  predicate Stable(b: Block) { b.evidenceKey != "" && (b.platformId != "" || b.permalink != "") }

  /** The capture l is the last stable one of the signature. */
  predicate IsLastStable(n: Norms, bs: seq<Block>, sig: string, l: nat) {
    && Member(n, bs, sig, l) && Stable(bs[l])
    && forall i :: l < i < |bs| && Signature(n, bs[i]) == sig ==> !Stable(bs[i])
  }

  /** The identity fields that one capture gives the group, where it has them. */
  predicate Gives(b: Block, best: Block) {
    && best.evidenceKey == b.evidenceKey
    && (b.permalink != "" ==> best.permalink == b.permalink) && (b.platformId != "" ==> best.platformId == b.platformId)
  }

  lemma ImproveGives(n: Norms, previous: Block, block: Block)
    ensures Stable(block) ==> Gives(block, Improve(n, previous, block))
    ensures Stable(previous) && !Stable(block) ==>
              var r := Improve(n, previous, block);
              r.evidenceKey == previous.evidenceKey && r.permalink == previous.permalink && r.platformId == previous.platformId
  {
  }

  lemma {:induction false} BestIsLastStable(n: Norms, bs: seq<Block>, sig: string, l: nat)
    requires IsLastStable(n, bs, sig, l)
    ensures Best(n, bs, sig).Some? && Gives(bs[l], Best(n, bs, sig).value) && Stable(Best(n, bs, sig).value)
  {
    InitMembers(bs);
    var before := Best(n, Init(bs), sig);
    if l < |bs| - 1 {
      assert IsLastStable(n, Init(bs), sig, l);
      BestIsLastStable(n, Init(bs), sig, l);
    }
    if before.Some? {
      ImproveGives(n, before.value, Last(bs));
      ImproveKeepsStability(n, before.value, Last(bs));
    }
  }

  /**
   In an unambiguous signature every block takes the evidence key of the last stable capture, and its
   permalink and platform id where it has them.
   */
  lemma LastStableCaptureNamesAll(n: Norms, bs: seq<Block>, b: Block, l: nat)
    requires Signature(n, b) != "" && !Ambiguous(n, bs, Signature(n, b)) && IsLastStable(n, bs, Signature(n, b), l)
    ensures Gives(bs[l], Reconciled(n, bs, b))
  {
    BestIsLastStable(n, bs, Signature(n, b), l);
  }

  lemma {:induction false} NoKeyNoBest(n: Norms, bs: seq<Block>, sig: string)
    requires forall i :: 0 <= i < |bs| && Signature(n, bs[i]) == sig ==> bs[i].evidenceKey == ""
    ensures Best(n, bs, sig).Some? ==> Best(n, bs, sig).value.evidenceKey == ""
  {
    if bs == [] {
    } else {
      InitMembers(bs);
      NoKeyNoBest(n, Init(bs), sig);
    }
  }

  /** Where no capture of the signature has an evidence key, there is nothing to adopt. */
  lemma NothingToAdopt(n: Norms, bs: seq<Block>, b: Block)
    requires forall i :: 0 <= i < |bs| && Signature(n, bs[i]) == Signature(n, b) ==> bs[i].evidenceKey == ""
    ensures Reconciled(n, bs, b) == b
  {
    NoKeyNoBest(n, bs, Signature(n, b));
  }

  // ---- contents ----------------------------------------------------------------------------------------------

  function Longer(a: string, b: string): string { if |a| > |b| then a else b }

  /** Of two captures the later one's contents win where it has any, and the longer text. */
  lemma LaterContentsWin(n: Norms, a: Block, b: Block)
    ensures var m := MergeBlock(n, a, b);
      && (b.author != "" ==> m.author == b.author) && (b.author == "" ==> m.author == a.author)
      && m.text == Longer(a.text, b.text)
      && (b.contentKind != "" ==> m.contentKind == b.contentKind) && (b.contentKind == "" ==> m.contentKind == a.contentKind)
      && (b.publishedAt.Some? ==> m.publishedAt == b.publishedAt) && (b.publishedAt.None? ==> m.publishedAt == a.publishedAt)
      && Overlays(m.presentation, a.presentation, b.presentation)
      && m.details == n.mergeDetails(a.details, b.details)
      && m.evidenceKey == b.evidenceKey
  {
  }

  /** A stable capture that an unstable one follows keeps its own presentation on top; otherwise the contents merge plainly. */
  lemma ImprovementKeepsContents(n: Norms, a: Block, b: Block)
    ensures var r, m := Improve(n, a, b), MergeBlock(n, a, b);
      && r.author == m.author && r.text == m.text && r.contentKind == m.contentKind && r.publishedAt == m.publishedAt && r.details == m.details
      && (if Stable(a) && !Stable(b) then Overlays(r.presentation, b.presentation, a.presentation)
          else Overlays(r.presentation, a.presentation, b.presentation))
  {
  }

  /** A promoted block keeps its place; its contents are the best capture's where that has any. */
  lemma PromotionKeepsContents(n: Norms, b: Block, best: Block)
    ensures var r, m := Promote(n, b, best), MergeBlock(n, b, best);
      && r.author == m.author && r.text == m.text && r.contentKind == m.contentKind && r.publishedAt == m.publishedAt && r.details == m.details
      && r.feedPosition == b.feedPosition && Overlays(r.presentation, b.presentation, best.presentation)
      && r.evidenceKey == best.evidenceKey && r.permalink == best.permalink
      && (best.platformId != "" ==> r.platformId == best.platformId) && (best.platformId == "" ==> r.platformId == b.platformId)
  {
  }

  /** A signed block is promoted by the best capture of its signature exactly if that is unambiguous and stable. */
  lemma PromotedIff(n: Norms, bs: seq<Block>, b: Block)
    requires Signature(n, b) != "" && !Ambiguous(n, bs, Signature(n, b))
    ensures var best := Best(n, bs, Signature(n, b));
      Reconciled(n, bs, b) == if best.Some? && Stable(best.value) then Promote(n, b, best.value) else b
  {
  }

  /** The earlier of two known feed positions; unknown ones are not positive. */
  lemma EarlierPositionIs(a: int, b: int)
    ensures var e := EarlierFeedPosition(a, b);
      && (e == a || e == b) && (a > 0 && b > 0 ==> e <= a && e <= b) && (a > 0 || b > 0 ==> e > 0)
  {
  }
}
