/**
 The conditions of the reconciliation laws are exact: every capture that breaks one of them has
 companions that keep it and with which the law fails.
 */
module ReconcileLimits {
  import opened Common
  import opened Reconcile
  import opened ReconcileLaws

  /** Captures of one post that differ in nothing but their identity fields. */
  function WithIds(p: Block, evidenceKey: string, permalink: string, platformId: string): Block {
    p.(evidenceKey := evidenceKey, permalink := permalink, platformId := platformId)
  }

  lemma TwoCaptures(n: Norms, a: Block, b: Block, sig: string)
    requires Signature(n, a) == Signature(n, b) == sig && Compatible(n, a, b)
    ensures var bs := [a, b];
            && Best(n, bs, sig) == Some(Improve(n, a, b)) && First(n, bs, sig) == Some(a)
            && !Conflict(n, bs, sig)
            && NativeIds(n, bs, sig) == Named(StableIdentity(n, a)) + Named(StableIdentity(n, b))
            && (Fallback(n, bs, sig) <==> StableIdentity(n, a) == "" || StableIdentity(n, b) == "")
  {
    OneMore(n, [], a, sig);
    OneMore(n, [a], b, sig);
    assert [] + [a] == [a] && [a] + [b] == [a, b];
  }

  lemma ThreeCaptures(n: Norms, a: Block, b: Block, c: Block, sig: string)
    requires Signature(n, a) == Signature(n, b) == Signature(n, c) == sig && Compatible(n, a, b) && Compatible(n, a, c)
    ensures var bs := [a, b, c];
            && Best(n, bs, sig) == Some(Improve(n, Improve(n, a, b), c))
            && !Conflict(n, bs, sig)
            && NativeIds(n, bs, sig) == Named(StableIdentity(n, a)) + Named(StableIdentity(n, b)) + Named(StableIdentity(n, c))
  {
    TwoCaptures(n, a, b, sig);
    OneMore(n, [a, b], c, sig);
    assert [a, b] + [c] == [a, b, c];
  }

  /** An unambiguous list whose best capture is stable promotes the block. */
  lemma PromotedBy(n: Norms, bs: seq<Block>, b: Block, best: Block)
    requires Signature(n, b) != "" && !Conflict(n, bs, Signature(n, b)) && |NativeIds(n, bs, Signature(n, b))| <= 1
    requires Best(n, bs, Signature(n, b)) == Some(best) && HasStableIdentity(best)
    ensures Reconciled(n, bs, b) == Promote(n, b, best)
  {
  }

  /**
   For every unanchored block there are two anchored captures of the same post in whose company
   reconciliation takes away a native identity. So the anchored blocks are exactly the safe ones.
   */
  lemma UnanchoredBlocksBreakIdentity(n: Norms, b: Block, id: string) returns (a: Block, c: Block)
    requires n.trim("") == "" && n.trim(id) != "" && Signature(n, b) != "" && !Anchored(n, b)
    ensures Anchored(n, a) && Anchored(n, c) && StableIdentity(n, a) != ""
    ensures StableIdentity(n, Reconciled(n, [a, b, c], a)) != StableIdentity(n, a)
  {
    a := if b.platformId != "" then WithIds(b, "", "", id) else WithIds(b, "", id, "");
    c := WithIds(b, "key", "", "");
    var sig := Signature(n, b);
    ThreeCaptures(n, a, b, c, sig);
    var best := Improve(n, Improve(n, a, b), c);
    assert NativeIds(n, [a, b, c], sig) == {StableIdentity(n, a)};
    PromotedBy(n, [a, b, c], a, best);
    BlankIdsTakeOver(n, a, b, c);
  }

  lemma BlankIdsTakeOver(n: Norms, a: Block, b: Block, c: Block)
    requires !HasStableIdentity(a) && c.platformId == "" && c.permalink == "" && c.evidenceKey != ""
    requires (b.platformId != "" && a.permalink == "") || (b.platformId == "" && b.permalink != "" && a.platformId == "")
    ensures var best := Improve(n, Improve(n, a, b), c);
            best.platformId == b.platformId && best.permalink == b.permalink && HasStableIdentity(best)
    ensures var p := Promote(n, a, Improve(n, Improve(n, a, b), c));
            p.platformId == b.platformId && p.permalink == b.permalink
  {
  }

  /** A stable best capture without a platform id leaves a block's own platform id where it is. */
  lemma PromotedTriple(n: Norms, b: Block, best: Block)
    requires best.platformId == ""
    ensures Triple(Promote(n, b, best)) == (best.evidenceKey, best.permalink, b.platformId)
  {
  }

  /** Captures that agree on everything a conflict is read from. */
  predicate SameMeta(a: Block, b: Block) {
    a.contentKind == b.contentKind && a.publishedAt == b.publishedAt && a.presentation == b.presentation
  }

  predicate AllSameMeta(bs: seq<Block>) { forall i, j :: 0 <= i < |bs| && 0 <= j < |bs| ==> SameMeta(bs[i], bs[j]) }

  lemma {:induction false} FirstIsAMember(n: Norms, bs: seq<Block>, sig: string)
    ensures First(n, bs, sig).Some? ==> First(n, bs, sig).value in bs
  {
    if bs == [] {
    } else {
      FirstIsAMember(n, Init(bs), sig);
    }
  }

  lemma {:induction false} SameMetaNoConflict(n: Norms, bs: seq<Block>, sig: string)
    requires AllSameMeta(bs)
    ensures !Conflict(n, bs, sig)
  {
    if bs == [] {
    } else {
      assert forall i :: 0 <= i < |Init(bs)| ==> Init(bs)[i] == bs[i];
      SameMetaNoConflict(n, Init(bs), sig);
      FirstIsAMember(n, Init(bs), sig);
    }
  }

  lemma {:induction false} NativeIdsWithin(n: Norms, bs: seq<Block>, sig: string, id: string)
    requires forall i :: 0 <= i < |bs| ==> StableIdentity(n, bs[i]) == "" || StableIdentity(n, bs[i]) == id
    ensures NativeIds(n, bs, sig) <= {id}
  {
    if bs == [] {
    } else {
      assert forall i :: 0 <= i < |Init(bs)| ==> Init(bs)[i] == bs[i];
      NativeIdsWithin(n, Init(bs), sig, id);
    }
  }

  lemma AgreeingCapturesAreUnambiguous(n: Norms, bs: seq<Block>, sig: string, id: string)
    requires AllSameMeta(bs)
    requires forall i :: 0 <= i < |bs| ==> StableIdentity(n, bs[i]) == "" || StableIdentity(n, bs[i]) == id
    ensures !Ambiguous(n, bs, sig)
  {
    SameMetaNoConflict(n, bs, sig);
    NativeIdsWithin(n, bs, sig, id);
    SubsetSize(NativeIds(n, bs, sig), {id});
  }

  /** Agreeing captures of one signature and at most one identity, also once they all have this permalink. */
  predicate Agree(n: Norms, bs: seq<Block>, permalink: string, id: string) {
    && Consistent(n, bs) && AllSameMeta(bs) && bs != [] && Signature(n, bs[0]) != ""
    && (forall i :: 0 <= i < |bs| ==> Signature(n, bs[i]) == Signature(n, bs[0]))
    && (forall i :: 0 <= i < |bs| ==> StableIdentity(n, bs[i]) == "" || StableIdentity(n, bs[i]) == id)
    && (forall i :: 0 <= i < |bs| ==>
          Identity(n, bs[i].platformId, permalink) == "" || Identity(n, bs[i].platformId, permalink) == id)
  }

  /** Agreeing captures whose best one lacks the platform id of capture k. */
  predicate Splits(n: Norms, bs: seq<Block>, best: Block, k: nat, id: string) {
    && Agree(n, bs, best.permalink, id)
    && 0 < k < |bs| && bs[0].platformId == "" && bs[k].platformId != ""
    && Best(n, bs, Signature(n, bs[0])) == Some(best) && HasStableIdentity(best) && best.platformId == ""
  }

  /**
   If the first pass leaves agreeing captures of one signature with different platform ids, the
   second pass evens them out.
   */
  lemma SplitPlatformBreaksIdempotence(n: Norms, bs: seq<Block>, best: Block, k: nat, id: string)
    requires n.author("") == "" && Splits(n, bs, best, k, id)
    ensures !KeptBySecondPass(n, bs, 0)
  {
    var cs, sig := ReconcileAll(n, bs), Signature(n, bs[0]);
    AgreeingCapturesAreUnambiguous(n, bs, sig, id);
    forall i | 0 <= i < |bs|
      ensures cs[i] == Promote(n, bs[i], best) && Signature(n, cs[i]) == sig
      ensures Triple(cs[i]) == (best.evidenceKey, best.permalink, bs[i].platformId)
    {
      SignatureIsKept(n, bs, i);
      PromotedTriple(n, bs[i], best);
    }
    forall i, j | 0 <= i < |cs| && 0 <= j < |cs| ensures SameMeta(cs[i], cs[j]) { PromotionKeepsSameMeta(n, bs[i], bs[j], best); }
    SecondPassFillsPlatform(n, cs, k, id);
  }

  lemma SecondPassFillsPlatform(n: Norms, cs: seq<Block>, k: nat, id: string)
    requires AllSameMeta(cs) && k < |cs| && cs[k].platformId != "" && Signature(n, cs[0]) != ""
    requires forall i :: 0 <= i < |cs| ==> Signature(n, cs[i]) == Signature(n, cs[0]) && HasStableIdentity(cs[i])
    requires forall i :: 0 <= i < |cs| ==> StableIdentity(n, cs[i]) == "" || StableIdentity(n, cs[i]) == id
    ensures Reconciled(n, cs, cs[0]).platformId != ""
  {
    var sig := Signature(n, cs[0]);
    AgreeingCapturesAreUnambiguous(n, cs, sig, id);
    StableGroupKeepsPlatform(n, cs, sig, k);
    PromotionTakesPlatform(n, cs, cs[0]);
  }

  lemma PromotionKeepsSameMeta(n: Norms, a: Block, b: Block, best: Block)
    requires SameMeta(a, b)
    ensures SameMeta(Promote(n, a, best), Promote(n, b, best))
  {
  }

  lemma PromotionTakesPlatform(n: Norms, cs: seq<Block>, b: Block)
    requires Signature(n, b) != "" && !Ambiguous(n, cs, Signature(n, b)) && Best(n, cs, Signature(n, b)).Some?
    requires var best := Best(n, cs, Signature(n, b)).value; HasStableIdentity(best) && best.platformId != ""
    ensures Reconciled(n, cs, b).platformId != ""
  {
  }

  /** Among captures that are all stable, a platform id is never lost. */
  lemma {:induction false} StableGroupKeepsPlatform(n: Norms, cs: seq<Block>, sig: string, k: nat)
    requires forall i :: 0 <= i < |cs| ==> Signature(n, cs[i]) == sig && HasStableIdentity(cs[i])
    requires k < |cs| && cs[k].platformId != ""
    ensures Best(n, cs, sig).Some? && Best(n, cs, sig).value.platformId != "" && HasStableIdentity(Best(n, cs, sig).value)
  {
    var rest := Init(cs);
    assert forall i :: 0 <= i < |rest| ==> rest[i] == cs[i];
    var before := Best(n, rest, sig);
    if before.Some? {
      ImproveIds(n, before.value, Last(cs));
      ImproveKeepsStability(n, before.value, Last(cs));
    }
    if k < |rest| { StableGroupKeepsPlatform(n, rest, sig, k); }
  }

  /** An evidence-less capture with a blank platform id, next to a stable one with a permalink. */
  lemma BlankPlatformSplits(n: Norms, b: Block, permalink: string) returns (bs: seq<Block>, best: Block, id: string)
    requires n.trim("") == "" && n.trim(permalink) != "" && n.author("") == "" && Signature(n, b) != ""
    requires b.platformId != "" && n.trim(b.platformId) == "" && b.evidenceKey == ""
    requires n.trim(b.permalink) == "" || b.permalink == permalink
    ensures Splits(n, bs, best, 1, id)
    ensures bs == [WithIds(b, "key", permalink, ""), b]
  {
    var a := WithIds(b, "key", permalink, "");
    bs, best, id := [a, b], Improve(n, a, b), StableIdentity(n, a);
    assert Agree(n, bs, permalink, id);
    assert Best(n, bs, Signature(n, b)) == Some(best) by { TwoCaptures(n, a, b, Signature(n, b)); }
    assert best.evidenceKey == "key" && best.permalink == permalink && best.platformId == "";
  }

  lemma BlankPermalinkIsBest(n: Norms, b: Block, c: Block, x: Block)
    requires b.platformId == "" && b.permalink != "" && c == WithIds(b, "key", "", "")
    requires x.evidenceKey == ""
    ensures var best := Improve(n, Improve(n, b, c), x);
            HasStableIdentity(best) && best.permalink == b.permalink && best.platformId == ""
  {
    assert HasStableIdentity(Improve(n, b, c));
  }

  /** A capture with a blank permalink and no platform id, next to an evidence key and a platform id. */
  lemma BlankPermalinkSplits(n: Norms, b: Block, platform: string) returns (bs: seq<Block>, best: Block, id: string)
    requires n.trim("") == "" && n.trim(platform) != "" && n.author("") == "" && Signature(n, b) != ""
    requires b.platformId == "" && b.permalink != "" && n.trim(b.permalink) == ""
    ensures Splits(n, bs, best, 2, id)
    ensures bs == [b, WithIds(b, "key", "", ""), WithIds(b, "", "", platform)]
  {
    var c, x := WithIds(b, "key", "", ""), WithIds(b, "", "", platform);
    bs, best, id := [b, c, x], Improve(n, Improve(n, b, c), x), StableIdentity(n, x);
    assert Best(n, bs, Signature(n, b)) == Some(best) by { ThreeCaptures(n, b, c, x, Signature(n, b)); }
    BlankPermalinkIsBest(n, b, c, x);
    ThreeAgree(n, b, c, x, b.permalink, id);
  }

  lemma ThreeAgree(n: Norms, b: Block, c: Block, x: Block, permalink: string, id: string)
    requires n.trim("") == "" && n.author("") == "" && Signature(n, b) != "" && b.platformId == ""
    requires c == WithIds(b, "key", "", "") && x == WithIds(b, "", "", x.platformId) && id == StableIdentity(n, x) != ""
    requires n.trim(x.platformId) != "" && n.trim(b.permalink) == "" && permalink == b.permalink
    ensures Agree(n, [b, c, x], permalink, id)
  {
    var bs := [b, c, x];
    assert forall i :: 0 <= i < |bs| ==> Signature(n, bs[i]) == Signature(n, b);
    assert AllSameMeta(bs) && Consistent(n, bs);
  }

  /**
   Every untidy block has tidy companions of the same post with which a second pass changes a
   platform id. So the tidy blocks are exactly the ones for which reconciliation is idempotent.
   */
  lemma UntidyBlocksBreakIdempotence(n: Norms, b: Block, id: string) returns (bs: seq<Block>)
    requires n.trim("") == "" && n.trim(id) != "" && n.author("") == "" && Signature(n, b) != "" && !Tidy(n, b)
    ensures b in bs && Consistent(n, bs) && forall c <- bs :: c == b || Tidy(n, c)
    ensures |bs| > 0 && !KeptBySecondPass(n, bs, 0)
  {
    var best, only;
    if b.platformId != "" {
      bs, best, only := BlankPlatformSplits(n, b, if n.trim(b.permalink) != "" then b.permalink else id);
      SplitPlatformBreaksIdempotence(n, bs, best, 1, only);
      assert bs[1] == b;
    } else {
      bs, best, only := BlankPermalinkSplits(n, b, id);
      SplitPlatformBreaksIdempotence(n, bs, best, 2, only);
      assert bs[0] == b;
    }
  }

  // ---- colliding contents ---------------------------------------------------------------------------

  /** Two contents that share a signature and that a merge can mix, the longer text first. */
  predicate Collide(n: Norms, a: Block, b: Block) {
    Signature(n, a) == Signature(n, b) != "" && n.author(a.author) != n.author(b.author) && |a.text| > |b.text|
  }

  function WithContent(p: Block, author: string, text: string): Block { p.(author := author, text := text) }

  /** The author of b with the text of a has a signature of its own. */
  lemma MixedSignature(n: Norms, a: Block, b: Block, m: Block)
    requires Collide(n, a, b) && m.author == b.author && m.text == a.text
    ensures Signature(n, m) != "" && Signature(n, m) != Signature(n, a)
  {
    if Signature(n, m) == Signature(n, a) { SuffixCancels(n.source + NUL, n.author(b.author), n.author(a.author), n.text(a.text)); }
  }

  lemma SuffixCancels(s: string, a: string, a': string, t: string)
    requires s + a + NUL + t == s + a' + NUL + t
    ensures a == a'
  {
    var j, j' := s + a + NUL + t, s + a' + NUL + t;
    assert |a| == |a'|;
    assert j[|s|..|s| + |a|] == a && j'[|s|..|s| + |a'|] == a';
  }

  /** The three captures: the longer text, the other author with the ids, and their mixture. */
  predicate Trio(n: Norms, a: Block, b: Block, id: string, x: Block, y: Block, z: Block) {
    && Collide(n, a, b) && n.author("") == "" && n.trim("") == "" && n.trim(id) != ""
    && x == WithIds(a, "", "", "")
    && y == WithIds(WithContent(a, b.author, b.text), "key", "", id)
    && z == WithIds(WithContent(a, b.author, a.text), "", "", "")
  }

  /** The best capture of the first two mixes their contents. */
  lemma BestIsMixed(n: Norms, a: Block, b: Block, id: string, x: Block, y: Block, z: Block)
    requires Trio(n, a, b, id, x, y, z)
    ensures var best := Improve(n, x, y);
      && best.author == b.author && best.text == a.text && Triple(best) == ("key", "", id)
      && best.contentKind == a.contentKind && best.publishedAt == a.publishedAt && best.presentation == a.presentation
  {
    assert b.author != "";
    assert a.presentation + a.presentation == a.presentation;
  }

  /** What the first pass finds for the two signatures. */
  lemma BestOfTrio(n: Norms, a: Block, b: Block, id: string, x: Block, y: Block, z: Block)
    requires Trio(n, a, b, id, x, y, z)
    ensures Best(n, [x, y, z], Signature(n, a)) == Some(Improve(n, x, y))
    ensures Best(n, [x, y, z], Signature(n, z)) == Some(z)
  {
    var sig, mixed := Signature(n, a), Signature(n, z);
    MixedSignature(n, a, b, z);
    TwoCaptures(n, x, y, sig);
    assert Init([x, y, z]) == [x, y] && Last([x, y, z]) == z;
    assert Init([x, y]) == [x] && Last([x, y]) == y && Init([x]) == [] && Last([x]) == x;
    assert Best(n, [x], mixed) == None && Best(n, [x, y], mixed) == None;
  }

  lemma TrioIsUnambiguous(n: Norms, a: Block, b: Block, id: string, x: Block, y: Block, z: Block, sig: string)
    requires Trio(n, a, b, id, x, y, z)
    ensures !Ambiguous(n, [x, y, z], sig)
  {
    AgreeingCapturesAreUnambiguous(n, [x, y, z], sig, StableIdentity(n, y));
  }

  /** A capture promoted by the mixed best one. */
  predicate Mixed(n: Norms, a: Block, b: Block, id: string, c: Block) {
    && c.author == b.author && c.text == a.text && Triple(c) == ("key", "", id)
    && c.contentKind == a.contentKind && c.publishedAt == a.publishedAt && c.presentation == a.presentation
  }

  lemma PromotedIsMixed(n: Norms, a: Block, b: Block, id: string, x: Block, y: Block, z: Block)
    requires Trio(n, a, b, id, x, y, z)
    ensures Mixed(n, a, b, id, Promote(n, x, Improve(n, x, y))) && Mixed(n, a, b, id, Promote(n, y, Improve(n, x, y)))
  {
    BestIsMixed(n, a, b, id, x, y, z);
    assert a.presentation + a.presentation == a.presentation;
    assert b.author != "";
  }

  /** The first pass moves two captures to the signature of the third, which it leaves alone. */
  lemma FirstPassMixes(n: Norms, a: Block, b: Block, id: string, x: Block, y: Block, z: Block)
    requires Trio(n, a, b, id, x, y, z)
    ensures var bs := [x, y, z];
      Mixed(n, a, b, id, Reconciled(n, bs, x)) && Mixed(n, a, b, id, Reconciled(n, bs, y)) && Reconciled(n, bs, z) == z
  {
    var sig, best := Signature(n, a), Improve(n, x, y);
    BestOfTrio(n, a, b, id, x, y, z);
    TrioIsUnambiguous(n, a, b, id, x, y, z, sig);
    BestIsMixed(n, a, b, id, x, y, z);
    PromotedIsMixed(n, a, b, id, x, y, z);
    assert Signature(n, x) == sig && Signature(n, y) == sig;
  }

  /** The second pass finds the third capture in the company of stable ones, and gives it their ids. */
  lemma SecondPassAdopts(n: Norms, a: Block, b: Block, id: string, x': Block, y': Block, z: Block)
    requires Collide(n, a, b) && n.trim("") == "" && n.trim(id) != ""
    requires Mixed(n, a, b, id, x') && Mixed(n, a, b, id, y') && z == WithIds(WithContent(a, b.author, a.text), "", "", "")
    ensures Reconciled(n, [x', y', z], z).platformId == id
  {
    var sig, cs := Signature(n, z), [x', y', z];
    MixedSignature(n, a, b, z);
    ThreeCaptures(n, x', y', z, sig);
    MixedAreUnambiguous(n, a, b, id, x', y', z, sig);
    BestOfMixed(n, a, b, id, x', y', z);
    PromotedBy(n, cs, z, Improve(n, Improve(n, x', y'), z));
  }

  lemma MixedAreUnambiguous(n: Norms, a: Block, b: Block, id: string, x': Block, y': Block, z: Block, sig: string)
    requires n.trim("") == "" && n.trim(id) != ""
    requires Mixed(n, a, b, id, x') && Mixed(n, a, b, id, y') && z == WithIds(WithContent(a, b.author, a.text), "", "", "")
    ensures !Conflict(n, [x', y', z], sig) && |NativeIds(n, [x', y', z], sig)| <= 1
  {
    SameMetaNoConflict(n, [x', y', z], sig);
    NativeIdsWithin(n, [x', y', z], sig, StableIdentity(n, x'));
    SubsetSize(NativeIds(n, [x', y', z], sig), {StableIdentity(n, x')});
  }

  lemma BestOfMixed(n: Norms, a: Block, b: Block, id: string, x': Block, y': Block, z: Block)
    requires id != "" && Mixed(n, a, b, id, x') && Mixed(n, a, b, id, y') && z == WithIds(WithContent(a, b.author, a.text), "", "", "")
    ensures var best := Improve(n, Improve(n, x', y'), z); best.platformId == id && HasStableIdentity(best)
  {
    assert Triple(Improve(n, x', y')) == ("key", "", id);
  }

  lemma TrioMovesSignature(n: Norms, a: Block, b: Block, id: string, x: Block, y: Block, z: Block)
    requires Trio(n, a, b, id, x, y, z)
    ensures Signature(n, Reconciled(n, [x, y, z], x)) != Signature(n, x)
  {
    FirstPassMixes(n, a, b, id, x, y, z);
    MixedSignature(n, a, b, Reconciled(n, [x, y, z], x));
  }

  lemma TrioBreaksIdempotence(n: Norms, a: Block, b: Block, id: string, x: Block, y: Block, z: Block)
    requires Trio(n, a, b, id, x, y, z)
    ensures !KeptBySecondPass(n, [x, y, z], 2)
  {
    var x', y' := Reconciled(n, [x, y, z], x), Reconciled(n, [x, y, z], y);
    FirstPassMixes(n, a, b, id, x, y, z);
    assert Triple(Reconciled(n, [x', y', z], z)) != Triple(z) by { SecondPassAdopts(n, a, b, id, x', y', z); }
    ThreePasses(n, [x, y, z], x', y', z);
  }

  /** A tidy capture whose author and text are each one of the given two. */
  predicate Companion(n: Norms, a: Block, b: Block, c: Block) {
    Tidy(n, c) && (c.author == a.author || c.author == b.author) && (c.text == a.text || c.text == b.text)
  }

  /** A list of companions on which the signature law and idempotence both fail. */
  predicate BreaksBothLaws(n: Norms, a: Block, b: Block, bs: seq<Block>) {
    && |bs| == 3 && (forall i :: 0 <= i < |bs| ==> Companion(n, a, b, bs[i]))
    && Signature(n, Reconciled(n, bs, bs[0])) != Signature(n, bs[0])
    && !KeptBySecondPass(n, bs, 2)
  }

  lemma TrioBreaksBothLaws(n: Norms, a: Block, b: Block, id: string, x: Block, y: Block, z: Block)
    requires Trio(n, a, b, id, x, y, z)
    ensures BreaksBothLaws(n, a, b, [x, y, z]) && BreaksBothLaws(n, b, a, [x, y, z])
  {
    TrioMovesSignature(n, a, b, id, x, y, z);
    TrioBreaksIdempotence(n, a, b, id, x, y, z);
    assert Companion(n, a, b, x) && Companion(n, a, b, y) && Companion(n, a, b, z);
  }

  function TrioOf(a: Block, b: Block, id: string): (Block, Block, Block) {
    (WithIds(a, "", "", ""), WithIds(WithContent(a, b.author, b.text), "key", "", id), WithIds(WithContent(a, b.author, a.text), "", "", ""))
  }

  /**
   Any two contents that break consistency make both laws fail, in three tidy captures that have
   one of these contents or their mixture: the first pass moves a signature, and the second pass
   gives a platform id to a capture that had none. So the consistent captures are exactly the safe ones.
   */
  lemma InconsistentContentsBreakBothLaws(n: Norms, a: Block, b: Block, id: string) returns (bs: seq<Block>)
    requires n.trim("") == "" && n.author("") == "" && n.trim(id) != ""
    requires Signature(n, a) == Signature(n, b) != "" && !Agreeing(n, a, b)
    ensures BreaksBothLaws(n, a, b, bs)
  {
    var (x, y, z) := if |a.text| > |b.text| then TrioOf(a, b, id) else TrioOf(b, a, id);
    if |a.text| > |b.text| { TrioBreaksBothLaws(n, a, b, id, x, y, z); } else { TrioBreaksBothLaws(n, b, a, id, x, y, z); }
    bs := [x, y, z];
  }

  lemma ThreePasses(n: Norms, bs: seq<Block>, x': Block, y': Block, z': Block)
    requires |bs| == 3 && x' == Reconciled(n, bs, bs[0]) && y' == Reconciled(n, bs, bs[1]) && z' == Reconciled(n, bs, bs[2])
    ensures KeptBySecondPass(n, bs, 2) <==> Triple(Reconciled(n, [x', y', z'], z')) == Triple(z')
  {
    var cs := ReconcileAll(n, bs);
    assert cs == [x', y', z'];
    assert ReconcileAll(n, cs)[2] == Reconciled(n, cs, z');
  }

  /** A NUL in an author makes such contents, if the norms leave the four strings used as they are. */
  lemma NulAuthorsCollide(n: Norms, p: Block, u: string, v: string, body: string) returns (a: Block, b: Block)
    requires u != "" && |body| >= 80
    requires n.author(u) == u && n.author(u + NUL + v) == u + NUL + v && n.text(v + NUL + body) == v + NUL + body && n.text(body) == body
    ensures a.author == u && b.author == u + NUL + v && a.text == v + NUL + body && b.text == body
    ensures Signature(n, a) == Signature(n, b) != "" && !Agreeing(n, a, b)
  {
    a, b := WithContent(p, u, v + NUL + body), WithContent(p, u + NUL + v, body);
    assert n.source + NUL + u + NUL + (v + NUL + body) == n.source + NUL + (u + NUL + v) + NUL + body;
    assert |u + NUL + v| > |u|;
  }
}
