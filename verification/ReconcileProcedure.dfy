/** The reconciliation procedure: two passes that fill tables keyed by signature, one that promotes. */
module ReconcileProcedure {
  import opened Common
  import opened Reconcile
  import opened ReconcileLaws

  /** The tables of the first pass. */
  datatype Tables = Tables(
    native: map<string, set<string>>,
    first: map<string, Block>,
    conflict: set<string>,
    fallback: set<string>)

  function NativeAt(t: Tables, sig: string): set<string> { if sig in t.native then t.native[sig] else {} }

  /** For each signature the tables hold what the captures so far say about it. */
  predicate RowFor(n: Norms, bs: seq<Block>, t: Tables, sig: string) {
    && NativeAt(t, sig) == NativeIds(n, bs, sig)
    && (if sig in t.first then First(n, bs, sig) == Some(t.first[sig]) else First(n, bs, sig).None?)
    && (sig in t.conflict <==> Conflict(n, bs, sig))
    && (sig in t.fallback <==> Fallback(n, bs, sig))
  }

  ghost predicate TablesFor(n: Norms, bs: seq<Block>, t: Tables) {
    forall sig :: sig != "" ==> RowFor(n, bs, t, sig)
  }

  lemma OtherRowIsKept(n: Norms, bs: seq<Block>, b: Block, sig: string)
    requires Signature(n, b) != sig
    ensures NativeIds(n, bs + [b], sig) == NativeIds(n, bs, sig) && First(n, bs + [b], sig) == First(n, bs, sig)
    ensures Conflict(n, bs + [b], sig) == Conflict(n, bs, sig) && Fallback(n, bs + [b], sig) == Fallback(n, bs, sig)
  {
    assert Init(bs + [b]) == bs && Last(bs + [b]) == b;
  }

  method Observe(n: Norms, ghost bs: seq<Block>, t: Tables, b: Block) returns (t': Tables)
    requires TablesFor(n, bs, t)
    ensures TablesFor(n, bs + [b], t')
  {
    var sig := Signature(n, b);
    t' := t;
    if sig != "" {
      if sig in t.first {
        if !Compatible(n, t.first[sig], b) { t' := t'.(conflict := t'.conflict + {sig}); }
      } else {
        t' := t'.(first := t'.first[sig := b]);
      }
      var id := StableIdentity(n, b);
      if id == "" {
        t' := t'.(fallback := t'.fallback + {sig});
      } else {
        t' := t'.(native := t'.native[sig := NativeAt(t', sig) + {id}]);
      }
      assert RowFor(n, bs + [b], t', sig) by {
        assert RowFor(n, bs, t, sig);
        OneMore(n, bs, b, sig);
      }
    }
    forall s | s != "" && s != sig ensures RowFor(n, bs + [b], t', s) {
      assert RowFor(n, bs, t, s);
      OtherRowIsKept(n, bs, b, s);
    }
  }

  predicate AmbiguousAt(t: Tables, sig: string) {
    || (sig in t.conflict && (sig in t.fallback || |NativeAt(t, sig)| != 1))
    || |NativeAt(t, sig)| > 1
  }

  ghost predicate BestFor(n: Norms, bs: seq<Block>, t: Tables, best: map<string, Block>) {
    && "" !in best
    && forall sig :: sig != "" && !AmbiguousAt(t, sig) ==>
         if sig in best then Best(n, bs, sig) == Some(best[sig]) else Best(n, bs, sig).None?
  }

  method Consider(n: Norms, ghost bs: seq<Block>, t: Tables, best: map<string, Block>, b: Block) returns (best': map<string, Block>)
    requires BestFor(n, bs, t, best)
    ensures BestFor(n, bs + [b], t, best')
  {
    best' := best;
    var sig := Signature(n, b);
    assert Init(bs + [b]) == bs && Last(bs + [b]) == b;
    if sig == "" || AmbiguousAt(t, sig) { return; }
    if sig !in best {
      best' := best[sig := b];
      return;
    }
    var previous := best[sig];
    var merged := MergeBlock(n, previous, b);
    if HasStableIdentity(previous) && !HasStableIdentity(b) {
      merged := merged.(permalink := previous.permalink, platformId := previous.platformId,
                        evidenceKey := previous.evidenceKey, presentation := merged.presentation + previous.presentation);
    }
    best' := best[sig := merged];
  }

  method PromoteBlock(n: Norms, ghost bs: seq<Block>, t: Tables, best: map<string, Block>, b: Block) returns (r: Block)
    requires TablesFor(n, bs, t) && BestFor(n, bs, t, best)
    ensures r == Reconciled(n, bs, b)
  {
    var sig := Signature(n, b);
    assert sig != "" ==> RowFor(n, bs, t, sig);
    if sig == "" || AmbiguousAt(t, sig) { return b; }
    if sig !in best || !HasStableIdentity(best[sig]) { return b; }
    var merged := MergeBlock(n, b, best[sig]);
    merged := merged.(feedPosition := b.feedPosition, permalink := best[sig].permalink);
    if best[sig].platformId != "" { merged := merged.(platformId := best[sig].platformId); }
    r := merged.(evidenceKey := best[sig].evidenceKey, presentation := b.presentation + best[sig].presentation);
  }

  lemma FlattenStep(snapshots: seq<Snapshot>, s: nat)
    requires s < |snapshots|
    ensures Flatten(snapshots[..s + 1]) == Flatten(snapshots[..s]) + snapshots[s].blocks
  {
    assert snapshots[..s + 1][..s] == snapshots[..s];
  }

  method ObserveAll(n: Norms, snapshots: seq<Snapshot>) returns (t: Tables)
    ensures TablesFor(n, Flatten(snapshots), t)
  {
    t := Tables(map[], map[], {}, {});
    for s := 0 to |snapshots|
      invariant TablesFor(n, Flatten(snapshots[..s]), t)
    {
      var blocks := snapshots[s].blocks;
      ghost var before := Flatten(snapshots[..s]);
      assert before + blocks[..0] == before;
      for i := 0 to |blocks|
        invariant TablesFor(n, before + blocks[..i], t)
      {
        t := Observe(n, before + blocks[..i], t, blocks[i]);
        assert before + blocks[..i] + [blocks[i]] == before + blocks[..i + 1];
      }
      assert blocks[..|blocks|] == blocks;
      FlattenStep(snapshots, s);
    }
    assert snapshots[..|snapshots|] == snapshots;
  }

  method ConsiderAll(n: Norms, snapshots: seq<Snapshot>, t: Tables) returns (best: map<string, Block>)
    ensures BestFor(n, Flatten(snapshots), t, best)
  {
    best := map[];
    for s := 0 to |snapshots|
      invariant BestFor(n, Flatten(snapshots[..s]), t, best)
    {
      var blocks := snapshots[s].blocks;
      ghost var before := Flatten(snapshots[..s]);
      assert before + blocks[..0] == before;
      for i := 0 to |blocks|
        invariant BestFor(n, before + blocks[..i], t, best)
      {
        best := Consider(n, before + blocks[..i], t, best, blocks[i]);
        assert before + blocks[..i] + [blocks[i]] == before + blocks[..i + 1];
      }
      assert blocks[..|blocks|] == blocks;
      FlattenStep(snapshots, s);
    }
    assert snapshots[..|snapshots|] == snapshots;
  }

  /** The procedure computes exactly the reconciliation that the laws are about. */
  method Run(n: Norms, snapshots: seq<Snapshot>) returns (result: seq<Snapshot>)
    ensures result == ReconcileSnapshots(n, snapshots)
  {
    var t := ObserveAll(n, snapshots);
    var best := ConsiderAll(n, snapshots, t);
    result := [];
    for s := 0 to |snapshots|
      invariant |result| == s
      invariant forall k :: 0 <= k < s ==> result[k] == ReconcileSnapshots(n, snapshots)[k]
    {
      var blocks: seq<Block> := [];
      for i := 0 to |snapshots[s].blocks|
        invariant |blocks| == i
        invariant forall k :: 0 <= k < i ==> blocks[k] == Reconciled(n, Flatten(snapshots), snapshots[s].blocks[k])
      {
        var b := PromoteBlock(n, Flatten(snapshots), t, best, snapshots[s].blocks[i]);
        blocks := blocks + [b];
      }
      assert blocks == MapBlocks(n, Flatten(snapshots), snapshots[s].blocks);
      result := result + [snapshots[s].(blocks := blocks)];
    }
  }
}
