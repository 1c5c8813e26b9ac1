/** What reconciliation promises about identities, and exactly which blocks it promises it for. */
module ReconcileLaws {
  import opened Common
  import opened Reconcile

  // ---- shape ---------------------------------------------------------------------------------

  /** A promoted block keeps the feed position of the capture it stands for. */
  lemma ReconciledKeepsPosition(n: Norms, bs: seq<Block>, b: Block)
    ensures Reconciled(n, bs, b).feedPosition == b.feedPosition
  {
  }

  lemma ReconciliationKeepsShape(n: Norms, snapshots: seq<Snapshot>)
    ensures var r := ReconcileSnapshots(n, snapshots);
            && |r| == |snapshots|
            && forall s :: 0 <= s < |r| ==>
                 && r[s].header == snapshots[s].header
                 && |r[s].blocks| == |snapshots[s].blocks|
                 && forall i :: 0 <= i < |r[s].blocks| ==> r[s].blocks[i].feedPosition == snapshots[s].blocks[i].feedPosition
  {
    forall s, i | 0 <= s < |snapshots| && 0 <= i < |snapshots[s].blocks|
      ensures ReconcileSnapshots(n, snapshots)[s].blocks[i].feedPosition == snapshots[s].blocks[i].feedPosition
    {
      ReconciledKeepsPosition(n, Flatten(snapshots), snapshots[s].blocks[i]);
    }
  }

  lemma {:induction false} FlattenMaps(n: Norms, bs: seq<Block>, snapshots: seq<Snapshot>, mapped: seq<Snapshot>)
    requires |mapped| == |snapshots|
    requires forall s :: 0 <= s < |mapped| ==> mapped[s].blocks == MapBlocks(n, bs, snapshots[s].blocks)
    ensures Flatten(mapped) == MapBlocks(n, bs, Flatten(snapshots))
  {
    if snapshots == [] {
    } else {
      var k := |snapshots| - 1;
      FlattenMaps(n, bs, snapshots[..k], mapped[..k]);
      MapBlocksConcat(n, bs, Flatten(snapshots[..k]), snapshots[k].blocks);
    }
  }

  lemma MapBlocksConcat(n: Norms, bs: seq<Block>, x: seq<Block>, y: seq<Block>)
    ensures MapBlocks(n, bs, x + y) == MapBlocks(n, bs, x) + MapBlocks(n, bs, y)
  {
    var l, r := MapBlocks(n, bs, x + y), MapBlocks(n, bs, x) + MapBlocks(n, bs, y);
    assert |l| == |r|;
    forall i | 0 <= i < |l| ensures l[i] == r[i] {
      assert l[i] == Reconciled(n, bs, (x + y)[i]);
      assert r[i] == Reconciled(n, bs, if i < |x| then x[i] else y[i - |x|]);
    }
  }

  /** Snapshot by snapshot is the same as block by block over the whole capture. */
  lemma SnapshotsReconcileAsOneList(n: Norms, snapshots: seq<Snapshot>)
    ensures Flatten(ReconcileSnapshots(n, snapshots)) == ReconcileAll(n, Flatten(snapshots))
  {
    FlattenMaps(n, Flatten(snapshots), snapshots, ReconcileSnapshots(n, snapshots));
  }

  // ---- one canonical identity per signature -----------------------------------------------------

  predicate StableIn(n: Norms, bs: seq<Block>, sig: string) {
    exists i :: 0 <= i < |bs| && Signature(n, bs[i]) == sig && HasStableIdentity(bs[i])
  }

  lemma ImproveKeepsStability(n: Norms, previous: Block, block: Block)
    ensures HasStableIdentity(previous) || HasStableIdentity(block) ==> HasStableIdentity(Improve(n, previous, block))
  {
  }

  lemma {:induction false} StableBlockMakesBestStable(n: Norms, bs: seq<Block>, sig: string)
    requires StableIn(n, bs, sig)
    ensures Best(n, bs, sig).Some? && HasStableIdentity(Best(n, bs, sig).value)
  {
    var i :| 0 <= i < |bs| && Signature(n, bs[i]) == sig && HasStableIdentity(bs[i]);
    var before := Best(n, Init(bs), sig);
    if i < |bs| - 1 {
      assert Init(bs)[i] == bs[i];
      StableBlockMakesBestStable(n, Init(bs), sig);
    }
    if before.Some? { ImproveKeepsStability(n, before.value, Last(bs)); }
  }

  /**
   All blocks of an unambiguous signature that has a stable block get one evidence key and one
   permalink; blocks of an ambiguous signature are untouched.
   */
  lemma OneIdentityPerSignature(n: Norms, bs: seq<Block>, a: Block, b: Block)
    requires a in bs && b in bs && Signature(n, a) == Signature(n, b) != ""
    ensures Ambiguous(n, bs, Signature(n, a)) ==> Reconciled(n, bs, a) == a && Reconciled(n, bs, b) == b
    ensures !Ambiguous(n, bs, Signature(n, a)) && StableIn(n, bs, Signature(n, a)) ==>
              && Reconciled(n, bs, a).evidenceKey == Reconciled(n, bs, b).evidenceKey != ""
              && Reconciled(n, bs, a).permalink == Reconciled(n, bs, b).permalink
              && HasStableIdentity(Reconciled(n, bs, a))
  {
    if StableIn(n, bs, Signature(n, a)) { StableBlockMakesBestStable(n, bs, Signature(n, a)); }
  }

  // ---- native identities ---------------------------------------------------------------------

  /** A block without a native identity has truly empty id fields, not blank ones. */
  predicate Anchored(n: Norms, b: Block) {
    StableIdentity(n, b) == "" ==> b.platformId == "" && b.permalink == ""
  }

  predicate AllAnchored(n: Norms, bs: seq<Block>) {
    forall i :: 0 <= i < |bs| && Signature(n, bs[i]) != "" ==> Anchored(n, bs[i])
  }

  /** The id fields name this native identity, or nothing at all. */
  predicate Fits(n: Norms, id: string, b: Block) {
    StableIdentity(n, b) == id || (b.platformId == "" && b.permalink == "")
  }

  predicate GroupFits(n: Norms, id: string, bs: seq<Block>, sig: string) {
    forall i :: 0 <= i < |bs| && Signature(n, bs[i]) == sig ==> Fits(n, id, bs[i])
  }

  /** Strings of the two identity kinds never coincide. */
  lemma KindsDiffer(a: string, b: string)
    ensures "platform:" + a != "permalink:" + b
  {
    assert ("platform:" + a)[1] == 'l' && ("permalink:" + b)[1] == 'e';
  }

  lemma ImproveFits(n: Norms, id: string, previous: Block, block: Block)
    requires n.trim("") == "" && id != "" && Fits(n, id, previous) && Fits(n, id, block)
    ensures Fits(n, id, Improve(n, previous, block))
  {
    KindsDiffer(n.lower(n.trim(previous.platformId)), n.trim(block.permalink));
    KindsDiffer(n.lower(n.trim(block.platformId)), n.trim(previous.permalink));
  }

  lemma {:induction false} BestFits(n: Norms, id: string, bs: seq<Block>, sig: string)
    requires n.trim("") == "" && id != "" && GroupFits(n, id, bs, sig)
    ensures Best(n, bs, sig).Some? ==> Fits(n, id, Best(n, bs, sig).value)
  {
    if bs == [] {
    } else {
      assert forall i :: 0 <= i < |Init(bs)| ==> Init(bs)[i] == bs[i];
      BestFits(n, id, Init(bs), sig);
      var before := Best(n, Init(bs), sig);
      if Signature(n, Last(bs)) == sig && before.Some? { ImproveFits(n, id, before.value, Last(bs)); }
    }
  }

  lemma {:induction false} NativeIdsAre(n: Norms, bs: seq<Block>, sig: string, i: nat)
    requires i < |bs| && Signature(n, bs[i]) == sig && StableIdentity(n, bs[i]) != ""
    ensures StableIdentity(n, bs[i]) in NativeIds(n, bs, sig)
  {
    if i < |bs| - 1 {
      assert Init(bs)[i] == bs[i];
      NativeIdsAre(n, Init(bs), sig, i);
    }
  }

  lemma SingletonIds(s: set<string>, a: string, b: string)
    requires a in s && b in s && |s| <= 1
    ensures a == b
  {
    if a != b { assert {a, b} <= s; assert |{a, b}| == 2; SubsetSize({a, b}, s); }
  }

  lemma {:induction false} SubsetSize(a: set<string>, b: set<string>)
    requires a <= b
    ensures |a| <= |b|
  {
    if a == {} {
    } else {
      var x :| x in a;
      SubsetSize(a - {x}, b - {x});
    }
  }

  /** In an unambiguous signature of anchored blocks, every block names the one native identity or none. */
  lemma UnambiguousGroupFits(n: Norms, bs: seq<Block>, sig: string, i: nat)
    requires AllAnchored(n, bs) && sig != "" && !Ambiguous(n, bs, sig)
    requires i < |bs| && Signature(n, bs[i]) == sig && StableIdentity(n, bs[i]) != ""
    ensures GroupFits(n, StableIdentity(n, bs[i]), bs, sig)
  {
    NativeIdsAre(n, bs, sig, i);
    forall j | 0 <= j < |bs| && Signature(n, bs[j]) == sig ensures Fits(n, StableIdentity(n, bs[i]), bs[j]) {
      if StableIdentity(n, bs[j]) != "" {
        NativeIdsAre(n, bs, sig, j);
        SingletonIds(NativeIds(n, bs, sig), StableIdentity(n, bs[i]), StableIdentity(n, bs[j]));
      }
    }
  }

  lemma PromoteKeepsNativeIdentity(n: Norms, b: Block, best: Block)
    requires n.trim("") == "" && StableIdentity(n, b) == StableIdentity(n, best) != ""
    ensures StableIdentity(n, Promote(n, b, best)) == StableIdentity(n, b)
  {
    KindsDiffer(n.lower(n.trim(b.platformId)), n.trim(best.permalink));
  }

  /** Reconciling anchored blocks changes no native identity that a block already had. */
  lemma NativeIdentityIsKept(n: Norms, bs: seq<Block>, i: nat)
    requires n.trim("") == "" && AllAnchored(n, bs) && i < |bs| && StableIdentity(n, bs[i]) != ""
    ensures StableIdentity(n, Reconciled(n, bs, bs[i])) == StableIdentity(n, bs[i])
  {
    var sig := Signature(n, bs[i]);
    if sig != "" && !Ambiguous(n, bs, sig) {
      UnambiguousGroupFits(n, bs, sig, i);
      BestFits(n, StableIdentity(n, bs[i]), bs, sig);
      var best := Best(n, bs, sig);
      if best.Some? && HasStableIdentity(best.value) { PromoteKeepsNativeIdentity(n, bs[i], best.value); }
    }
  }

  // ---- signatures survive merging ---------------------------------------------------------------

  /** Blocks agree on the normalised author and text. */
  predicate SameContent(n: Norms, a: Block, b: Block) {
    n.author(a.author) == n.author(b.author) && n.text(a.text) == n.text(b.text)
  }

  lemma JoinIsInjective(s: string, a: string, t: string, a': string, t': string)
    requires s + NUL + a + NUL + t == s + NUL + a' + NUL + t'
    requires '\0' !in a && '\0' !in a'
    ensures a == a' && t == t'
  {
    var j, j' := s + NUL + a + NUL + t, s + NUL + a' + NUL + t';
    var p := |s| + 1;
    assert j[p..] == a + NUL + t && j'[p..] == a' + NUL + t';
    var k, k' := a + NUL + t, a' + NUL + t';
    assert k == k' && k[|a|] == '\0' && k'[|a'|] == '\0';
    assert forall i :: 0 <= i < |a| ==> k[i] == a[i];
    assert forall i :: 0 <= i < |a'| ==> k'[i] == a'[i];
    assert |a| == |a'|;
    assert k[..|a|] == a && k'[..|a'|] == a' && k[|a| + 1..] == t && k'[|a'| + 1..] == t';
  }

  lemma EqualAuthorsAgree(n: Norms, a: Block, b: Block)
    requires Signature(n, a) == Signature(n, b) != "" && n.author(a.author) == n.author(b.author)
    ensures SameContent(n, a, b)
  {
    var p := n.source + NUL + n.author(a.author) + NUL;
    assert Signature(n, a)[|p|..] == n.text(a.text) && Signature(n, b)[|p|..] == n.text(b.text);
  }

  /**
   What keeps merging from mixing two contents: captures of one signature have one normalised
   author, or texts of one length, of which a merge takes author and text together.
   */
  predicate Agreeing(n: Norms, a: Block, b: Block) {
    n.author(a.author) == n.author(b.author) || |a.text| == |b.text|
  }

  predicate Consistent(n: Norms, bs: seq<Block>) {
    forall i, j :: 0 <= i < |bs| && 0 <= j < |bs| && Signature(n, bs[i]) == Signature(n, bs[j]) != "" ==> Agreeing(n, bs[i], bs[j])
  }

  /** Authors without a NUL are always consistent. */
  lemma PlainAuthorsAreConsistent(n: Norms, bs: seq<Block>)
    requires forall i :: 0 <= i < |bs| ==> '\0' !in n.author(bs[i].author)
    ensures Consistent(n, bs)
  {
    forall i, j | 0 <= i < |bs| && 0 <= j < |bs| && Signature(n, bs[i]) == Signature(n, bs[j]) != ""
      ensures Agreeing(n, bs[i], bs[j])
    {
      var a, b := bs[i], bs[j];
      JoinIsInjective(n.source, n.author(a.author), n.text(a.text), n.author(b.author), n.text(b.text));
    }
  }

  /** Every capture of the signature has the content of b. */
  predicate GroupContent(n: Norms, bs: seq<Block>, sig: string, b: Block) {
    forall i :: 0 <= i < |bs| && Signature(n, bs[i]) == sig ==> SameContent(n, bs[i], b)
  }

  lemma ImproveHasContent(n: Norms, previous: Block, block: Block, b: Block)
    requires SameContent(n, previous, b) && SameContent(n, block, b)
    ensures SameContent(n, Improve(n, previous, block), b)
  {
  }

  lemma {:induction false} BestHasContent(n: Norms, bs: seq<Block>, sig: string, b: Block)
    requires GroupContent(n, bs, sig, b)
    ensures Best(n, bs, sig).Some? ==> SameContent(n, Best(n, bs, sig).value, b)
  {
    if bs == [] {
    } else {
      assert forall i :: 0 <= i < |Init(bs)| ==> Init(bs)[i] == bs[i];
      BestHasContent(n, Init(bs), sig, b);
      var best := Best(n, Init(bs), sig);
      if Signature(n, Last(bs)) == sig && best.Some? { ImproveHasContent(n, best.value, Last(bs), b); }
    }
  }

  /** Every capture of the signature has a text of one length, and an author. */
  predicate GroupLength(n: Norms, bs: seq<Block>, sig: string, length: nat) {
    forall i :: 0 <= i < |bs| && Signature(n, bs[i]) == sig ==> |bs[i].text| == length && bs[i].author != ""
  }

  lemma ImproveTakesContent(n: Norms, previous: Block, block: Block)
    requires |previous.text| == |block.text| && block.author != ""
    ensures Improve(n, previous, block).author == block.author && Improve(n, previous, block).text == block.text
  {
  }

  /** With texts of one length, the best capture has the content of the last one. */
  lemma {:induction false} BestHasSignature(n: Norms, bs: seq<Block>, sig: string, length: nat)
    requires GroupLength(n, bs, sig, length)
    ensures Best(n, bs, sig).Some? ==>
              var best := Best(n, bs, sig).value; Signature(n, best) == sig && |best.text| == length && best.author != ""
  {
    if bs == [] {
      assert Best(n, bs, sig).None?;
    } else {
      assert forall i :: 0 <= i < |Init(bs)| ==> Init(bs)[i] == bs[i];
      BestHasSignature(n, Init(bs), sig, length);
      var best := Best(n, Init(bs), sig);
      if Signature(n, Last(bs)) == sig && best.Some? { ImproveTakesContent(n, best.value, Last(bs)); }
    }
  }

  /** A consistent group has one content, or texts of one length. */
  lemma ConsistentGroup(n: Norms, bs: seq<Block>, i: nat)
    requires n.author("") == "" && Consistent(n, bs) && i < |bs| && Signature(n, bs[i]) != ""
    ensures GroupContent(n, bs, Signature(n, bs[i]), bs[i]) || GroupLength(n, bs, Signature(n, bs[i]), |bs[i].text|)
  {
    var b, sig := bs[i], Signature(n, bs[i]);
    if j :| 0 <= j < |bs| && Signature(n, bs[j]) == sig && n.author(bs[j].author) != n.author(b.author) {
      forall k | 0 <= k < |bs| && Signature(n, bs[k]) == sig ensures |bs[k].text| == |b.text| && bs[k].author != "" {
        assert Agreeing(n, bs[j], b) && Agreeing(n, bs[k], b) && Agreeing(n, bs[k], bs[j]);
      }
    } else {
      forall k | 0 <= k < |bs| && Signature(n, bs[k]) == sig ensures SameContent(n, bs[k], b) { EqualAuthorsAgree(n, bs[k], b); }
    }
  }

  lemma PromoteKeepsSignature(n: Norms, b: Block, best: Block)
    requires SameContent(n, best, b) || (Signature(n, best) == Signature(n, b) && |best.text| == |b.text| && best.author != "")
    ensures Signature(n, Promote(n, b, best)) == Signature(n, b)
  {
  }

  /** Reconciling consistent captures never moves a block to another signature. */
  lemma SignatureIsKept(n: Norms, bs: seq<Block>, i: nat)
    requires n.author("") == "" && Consistent(n, bs) && i < |bs|
    ensures Signature(n, Reconciled(n, bs, bs[i])) == Signature(n, bs[i])
  {
    var b, sig := bs[i], Signature(n, bs[i]);
    if sig != "" && Best(n, bs, sig).Some? {
      ConsistentGroup(n, bs, i);
      if GroupContent(n, bs, sig, b) { BestHasContent(n, bs, sig, b); } else { BestHasSignature(n, bs, sig, |b.text|); }
      PromoteKeepsSignature(n, b, Best(n, bs, sig).value);
    }
  }

  // ---- idempotence ---------------------------------------------------------------------------

  /**
   What the second pass relies on: a block without a platform id has no blank permalink, and a
   blank platform id comes with an evidence key.
   */
  predicate Tidy(n: Norms, b: Block) {
    if b.platformId == "" then b.permalink == "" || n.trim(b.permalink) != ""
    else n.trim(b.platformId) != "" || b.evidenceKey != ""
  }

  predicate AllTidy(n: Norms, bs: seq<Block>) { forall i :: 0 <= i < |bs| && Signature(n, bs[i]) != "" ==> Tidy(n, bs[i]) }

  predicate GroupHasPlatform(n: Norms, bs: seq<Block>, sig: string) {
    exists i :: 0 <= i < |bs| && Signature(n, bs[i]) == sig && bs[i].platformId != ""
  }

  /** Where the identity fields of an improved capture come from. */
  lemma ImproveIds(n: Norms, previous: Block, block: Block)
    ensures var r := Improve(n, previous, block);
      && (r.permalink == previous.permalink || r.permalink == block.permalink)
      && (previous.platformId != "" ==> r.platformId != "")
      && (block.platformId != "" && r.platformId == "" ==> HasStableIdentity(previous) && !HasStableIdentity(block))
  {
  }

  /** The best capture's permalink is one of the group's. */
  lemma {:induction false} BestPermalinkOrigin(n: Norms, bs: seq<Block>, sig: string) returns (j: nat)
    requires Best(n, bs, sig).Some?
    ensures j < |bs| && Signature(n, bs[j]) == sig && bs[j].permalink == Best(n, bs, sig).value.permalink
  {
    var before := Best(n, Init(bs), sig);
    if before.Some? { ImproveIds(n, before.value, Last(bs)); }
    if Signature(n, Last(bs)) == sig && Last(bs).permalink == Best(n, bs, sig).value.permalink {
      j := |bs| - 1;
    } else {
      j := BestPermalinkOrigin(n, Init(bs), sig);
    }
  }

  lemma NativeIdsGrow(n: Norms, bs: seq<Block>, sig: string)
    requires bs != [] && |NativeIds(n, bs, sig)| <= 1
    ensures |NativeIds(n, Init(bs), sig)| <= 1
  {
    SubsetSize(NativeIds(n, Init(bs), sig), NativeIds(n, bs, sig));
  }

  /** A tidy newcomer whose platform id would be dropped contradicts the group's one native identity. */
  lemma DroppedPlatformIsAmbiguous(n: Norms, bs: seq<Block>, sig: string, j: nat)
    requires n.trim("") == "" && bs != [] && AllTidy(n, bs) && Signature(n, Last(bs)) == sig != ""
    requires Last(bs).platformId != "" && !HasStableIdentity(Last(bs))
    requires j < |bs| && Signature(n, bs[j]) == sig && bs[j].platformId == "" && bs[j].permalink != ""
    ensures |NativeIds(n, bs, sig)| > 1
  {
    assert Tidy(n, Last(bs)) && Tidy(n, bs[j]);
    NativeIdsAre(n, bs, sig, j);
    NativeIdsAre(n, bs, sig, |bs| - 1);
    KindsDiffer(n.lower(n.trim(Last(bs).platformId)), n.trim(bs[j].permalink));
    if |NativeIds(n, bs, sig)| <= 1 { SingletonIds(NativeIds(n, bs, sig), StableIdentity(n, bs[j]), StableIdentity(n, Last(bs))); }
  }

  /** The best capture of a tidy group with one native identity carries a platform id if any capture does. */
  lemma {:induction false} BestKeepsPlatform(n: Norms, bs: seq<Block>, sig: string)
    requires n.trim("") == "" && sig != "" && AllTidy(n, bs) && |NativeIds(n, bs, sig)| <= 1 && GroupHasPlatform(n, bs, sig)
    ensures Best(n, bs, sig).Some? && Best(n, bs, sig).value.platformId != ""
  {
    var rest := Init(bs);
    assert forall i :: 0 <= i < |rest| ==> rest[i] == bs[i];
    var before := Best(n, rest, sig);
    if GroupHasPlatform(n, rest, sig) {
      NativeIdsGrow(n, bs, sig);
      BestKeepsPlatform(n, rest, sig);
      ImproveIds(n, before.value, Last(bs));
    } else {
      assert Signature(n, Last(bs)) == sig && Last(bs).platformId != "";
      if before.Some? { NewPlatformIsKept(n, bs, sig); }
    }
  }

  /** The first platform id of the group is not dropped. */
  lemma NewPlatformIsKept(n: Norms, bs: seq<Block>, sig: string)
    requires n.trim("") == "" && sig != "" && bs != [] && AllTidy(n, bs) && |NativeIds(n, bs, sig)| <= 1
    requires Signature(n, Last(bs)) == sig && Last(bs).platformId != "" && !GroupHasPlatform(n, Init(bs), sig)
    requires Best(n, Init(bs), sig).Some?
    ensures Improve(n, Best(n, Init(bs), sig).value, Last(bs)).platformId != ""
  {
    var before := Best(n, Init(bs), sig).value;
    ImproveIds(n, before, Last(bs));
    if before.platformId == "" && HasStableIdentity(before) && !HasStableIdentity(Last(bs)) {
      var j := BestPermalinkOrigin(n, Init(bs), sig);
      assert Init(bs)[j] == bs[j];
      DroppedPlatformIsAmbiguous(n, bs, sig, j);
    }
  }

  /** The three identity fields that diagnostics and corrections refer to. */
  function Triple(b: Block): (string, string, string) { (b.evidenceKey, b.permalink, b.platformId) }

  /** Promotion gives every block of a tidy group the best capture's own identity fields. */
  lemma PromotedTripleIsBest(n: Norms, bs: seq<Block>, sig: string, i: nat)
    requires n.trim("") == "" && AllTidy(n, bs) && sig != "" && !Ambiguous(n, bs, sig)
    requires i < |bs| && Signature(n, bs[i]) == sig
    requires Best(n, bs, sig).Some? && HasStableIdentity(Best(n, bs, sig).value)
    ensures Triple(Reconciled(n, bs, bs[i])) == Triple(Best(n, bs, sig).value)
  {
    if bs[i].platformId != "" { BestKeepsPlatform(n, bs, sig); }
  }

  /** Two lists that agree on the blocks of one signature and on all signatures. */
  predicate AgreeOn(n: Norms, bs: seq<Block>, cs: seq<Block>, sig: string) {
    && |bs| == |cs|
    && (forall i :: 0 <= i < |bs| ==> Signature(n, bs[i]) == Signature(n, cs[i]))
    && (forall i :: 0 <= i < |bs| && Signature(n, bs[i]) == sig ==> bs[i] == cs[i])
  }

  lemma {:induction false} AgreeingGroupsAreAlike(n: Norms, bs: seq<Block>, cs: seq<Block>, sig: string)
    requires AgreeOn(n, bs, cs, sig)
    ensures NativeIds(n, bs, sig) == NativeIds(n, cs, sig) && Fallback(n, bs, sig) == Fallback(n, cs, sig)
    ensures First(n, bs, sig) == First(n, cs, sig) && Conflict(n, bs, sig) == Conflict(n, cs, sig)
  {
    if bs == [] {
    } else {
      AgreeingInits(n, bs, cs, sig);
      AgreeingGroupsAreAlike(n, Init(bs), Init(cs), sig);
    }
  }

  lemma AgreeingInits(n: Norms, bs: seq<Block>, cs: seq<Block>, sig: string)
    requires AgreeOn(n, bs, cs, sig) && bs != []
    ensures AgreeOn(n, Init(bs), Init(cs), sig)
    ensures Signature(n, Last(bs)) == Signature(n, Last(cs))
    ensures Signature(n, Last(bs)) == sig ==> Last(bs) == Last(cs)
  {
    assert forall i :: 0 <= i < |Init(bs)| ==> Init(bs)[i] == bs[i] && Init(cs)[i] == cs[i];
  }

  lemma {:induction false} AgreeingGroupsHaveOneBest(n: Norms, bs: seq<Block>, cs: seq<Block>, sig: string)
    requires AgreeOn(n, bs, cs, sig)
    ensures Best(n, bs, sig) == Best(n, cs, sig)
  {
    if bs == [] {
    } else {
      AgreeingInits(n, bs, cs, sig);
      AgreeingGroupsHaveOneBest(n, Init(bs), Init(cs), sig);
    }
  }

  lemma {:induction false} UniformGroupHasUniformBest(n: Norms, bs: seq<Block>, sig: string, t: (string, string, string))
    requires forall i :: 0 <= i < |bs| && Signature(n, bs[i]) == sig ==> Triple(bs[i]) == t
    ensures Best(n, bs, sig).Some? ==> Triple(Best(n, bs, sig).value) == t
  {
    if bs == [] {
    } else {
      assert forall i :: 0 <= i < |Init(bs)| ==> Init(bs)[i] == bs[i];
      UniformGroupHasUniformBest(n, Init(bs), sig, t);
    }
  }

  lemma UniformGroupIsKept(n: Norms, cs: seq<Block>, i: nat, t: (string, string, string))
    requires i < |cs|
    requires forall j :: 0 <= j < |cs| && Signature(n, cs[j]) == Signature(n, cs[i]) ==> Triple(cs[j]) == t
    ensures Triple(Reconciled(n, cs, cs[i])) == t
  {
    UniformGroupHasUniformBest(n, cs, Signature(n, cs[i]), t);
  }

  /** The second pass leaves the identity fields of block i as the first one set them. */
  predicate KeptBySecondPass(n: Norms, bs: seq<Block>, i: nat)
    requires i < |bs|
  {
    var cs := ReconcileAll(n, bs);
    Triple(ReconcileAll(n, cs)[i]) == Triple(cs[i])
  }

  /**
   A second pass changes no evidence key, permalink or platform id: merging keeps every block's
   signature, an untouched group stays untouched, and a promoted group is already uniform.
   */
  lemma ReconciliationIsIdempotentOnIdentity(n: Norms, bs: seq<Block>, i: nat)
    requires n.trim("") == "" && n.author("") == "" && AllTidy(n, bs) && Consistent(n, bs) && i < |bs|
    ensures KeptBySecondPass(n, bs, i)
  {
    var cs, sig := ReconcileAll(n, bs), Signature(n, bs[i]);
    forall j | 0 <= j < |bs| ensures Signature(n, cs[j]) == Signature(n, bs[j]) { SignatureIsKept(n, bs, j); }
    if sig != "" {
      var best := Best(n, bs, sig);
      if Ambiguous(n, bs, sig) || best.None? || !HasStableIdentity(best.value) {
        assert AgreeOn(n, bs, cs, sig);
        AgreeingGroupsAreAlike(n, bs, cs, sig);
        AgreeingGroupsHaveOneBest(n, bs, cs, sig);
        assert Reconciled(n, cs, cs[i]) == cs[i];
      } else {
        forall j | 0 <= j < |cs| && Signature(n, cs[j]) == sig ensures Triple(cs[j]) == Triple(best.value) {
          PromotedTripleIsBest(n, bs, sig, j);
        }
        UniformGroupIsKept(n, cs, i, Triple(best.value));
      }
    }
  }

  // ---- one more capture ---------------------------------------------------------------------------

  function Named(id: string): set<string> { if id == "" then {} else {id} }

  /** What one more capture of a signature adds to the tables. */
  lemma OneMore(n: Norms, bs: seq<Block>, b: Block, sig: string)
    requires Signature(n, b) == sig
    ensures NativeIds(n, bs + [b], sig) == NativeIds(n, bs, sig) + Named(StableIdentity(n, b))
    ensures Fallback(n, bs + [b], sig) <==> Fallback(n, bs, sig) || StableIdentity(n, b) == ""
    ensures First(n, bs + [b], sig) == if First(n, bs, sig).None? then Some(b) else First(n, bs, sig)
    ensures Conflict(n, bs + [b], sig) <==>
              Conflict(n, bs, sig) || (First(n, bs, sig).Some? && !Compatible(n, First(n, bs, sig).value, b))
    ensures Best(n, bs + [b], sig) == Some(if Best(n, bs, sig).None? then b else Improve(n, Best(n, bs, sig).value, b))
  {
    assert Init(bs + [b]) == bs && Last(bs + [b]) == b;
  }
}
