/**
 Reconciliation of repeated captures: blocks with one content signature are given one canonical
 evidence identity, unless the signature is ambiguous.

 Case folding, white-space handling and timestamp parsing are parameters (`Norms`). A Go string
 is a byte string here: one char per byte.
 */
module Reconcile {
  import opened Common
  import opened BlockDetails
  import DC = DirectContext

  datatype Block = Block(
    evidenceKey: string,
    author: string,
    text: string,
    permalink: string,
    publishedAt: Option<string>,
    platformId: string,
    contentKind: string,
    presentation: Object,
    feedPosition: int,
    details: Details)

  datatype Snapshot = Snapshot(header: string, blocks: seq<Block>)

  datatype Norms = Norms(
    source: string,
    author: string -> string,
    text: string -> string,
    trim: string -> string,
    lower: string -> string,
    time: string -> string,
    mergeDetails: (Details, Details) -> Details)

  /** The norms with the actual merge of details. The laws hold for any merge, so for this one. */
  function WithDetails(n: Norms, env: DC.Env): Norms {
    n.(mergeDetails := (previous, current) => MergeDetails(n.trim, env, previous, current))
  }

  // ---- identities ----------------------------------------------------------------------------

  const NUL: string := ['\0']

  function Signature(n: Norms, b: Block): string {
    if n.author(b.author) == "" || |n.text(b.text)| < 80 then ""
    else n.source + NUL + n.author(b.author) + NUL + n.text(b.text)
  }

  predicate HasStableIdentity(b: Block) { b.evidenceKey != "" && (b.platformId != "" || b.permalink != "") }

  function Identity(n: Norms, platformId: string, permalink: string): string {
    if n.trim(platformId) != "" then "platform:" + n.lower(n.trim(platformId))
    else if n.trim(permalink) != "" then "permalink:" + n.trim(permalink)
    else ""
  }

  function StableIdentity(n: Norms, b: Block): string { Identity(n, b.platformId, b.permalink) }

  function PublishedAt(n: Norms, b: Block): string {
    if "timestampEstimated" in b.presentation && b.presentation["timestampEstimated"] == Flag(true) then ""
    else if b.publishedAt.None? then ""
    else n.time(b.publishedAt.value)
  }

  predicate Compatible(n: Norms, previous: Block, current: Block) {
    var previousKind, currentKind := n.lower(n.trim(previous.contentKind)), n.lower(n.trim(current.contentKind));
    && (previousKind == "" || currentKind == "" || previousKind == currentKind)
    && (PublishedAt(n, previous) == "" || PublishedAt(n, current) == "" || PublishedAt(n, previous) == PublishedAt(n, current))
  }

  // ---- merging two captures -------------------------------------------------------------------

  function EarlierFeedPosition(previous: int, current: int): int {
    if previous <= 0 then current else if current <= 0 || previous < current then previous else current
  }

  function MergeBlock(n: Norms, previous: Block, current: Block): Block {
    current.(
      author := Or(current.author, previous.author),
      text := if |previous.text| > |current.text| then previous.text else current.text,
      permalink := Or(current.permalink, previous.permalink),
      platformId := Or(current.platformId, previous.platformId),
      publishedAt := if current.publishedAt.None? then previous.publishedAt else current.publishedAt,
      contentKind := Or(current.contentKind, previous.contentKind),
      feedPosition := EarlierFeedPosition(previous.feedPosition, current.feedPosition),
      presentation := previous.presentation + current.presentation,
      details := n.mergeDetails(previous.details, current.details))
  }

  /** One more capture of a signature; a stable identity is not given up for an unstable one. */
  function Improve(n: Norms, previous: Block, block: Block): Block {
    var merged := MergeBlock(n, previous, block);
    if HasStableIdentity(previous) && !HasStableIdentity(block) then
      merged.(permalink := previous.permalink, platformId := previous.platformId, evidenceKey := previous.evidenceKey,
              presentation := merged.presentation + previous.presentation)
    else merged
  }

  function Promote(n: Norms, block: Block, best: Block): Block {
    var merged := MergeBlock(n, block, best);
    merged.(feedPosition := block.feedPosition, permalink := best.permalink,
            platformId := if best.platformId != "" then best.platformId else merged.platformId,
            evidenceKey := best.evidenceKey, presentation := block.presentation + best.presentation)
  }

  // ---- what a list of captures says about one signature -------------------------------------------

  function Last(bs: seq<Block>): Block requires bs != [] { bs[|bs| - 1] }
  function Init(bs: seq<Block>): seq<Block> requires bs != [] { bs[..|bs| - 1] }

  function NativeIds(n: Norms, bs: seq<Block>, sig: string): set<string> {
    if bs == [] then {} else
      NativeIds(n, Init(bs), sig) +
      (if Signature(n, Last(bs)) == sig && StableIdentity(n, Last(bs)) != "" then {StableIdentity(n, Last(bs))} else {})
  }

  function First(n: Norms, bs: seq<Block>, sig: string): Option<Block> {
    if bs == [] then None else
      var first := First(n, Init(bs), sig);
      if first.None? && Signature(n, Last(bs)) == sig then Some(Last(bs)) else first
  }

  /** Metadata is compared with the first capture of the signature only. */
  predicate Conflict(n: Norms, bs: seq<Block>, sig: string) {
    bs != [] &&
    (|| Conflict(n, Init(bs), sig)
     || (Signature(n, Last(bs)) == sig && First(n, Init(bs), sig).Some? && !Compatible(n, First(n, Init(bs), sig).value, Last(bs))))
  }

  predicate Fallback(n: Norms, bs: seq<Block>, sig: string) {
    bs != [] && (Fallback(n, Init(bs), sig) || (Signature(n, Last(bs)) == sig && StableIdentity(n, Last(bs)) == ""))
  }

  predicate Ambiguous(n: Norms, bs: seq<Block>, sig: string) {
    || (Conflict(n, bs, sig) && (Fallback(n, bs, sig) || |NativeIds(n, bs, sig)| != 1))
    || |NativeIds(n, bs, sig)| > 1
  }

  function Best(n: Norms, bs: seq<Block>, sig: string): Option<Block> {
    if bs == [] then None else
      var best := Best(n, Init(bs), sig);
      if Signature(n, Last(bs)) != sig then best
      else if best.None? then Some(Last(bs))
      else Some(Improve(n, best.value, Last(bs)))
  }

  /** One block of the result, given all the captures. */
  function Reconciled(n: Norms, bs: seq<Block>, b: Block): Block {
    var sig := Signature(n, b);
    if sig == "" || Ambiguous(n, bs, sig) then b else
      var best := Best(n, bs, sig);
      if best.None? || !HasStableIdentity(best.value) then b else Promote(n, b, best.value)
  }

  function ReconcileAll(n: Norms, bs: seq<Block>): seq<Block> {
    seq(|bs|, i requires 0 <= i < |bs| => Reconciled(n, bs, bs[i]))
  }

  function Flatten(snapshots: seq<Snapshot>): seq<Block> {
    if snapshots == [] then [] else Flatten(snapshots[..|snapshots| - 1]) + snapshots[|snapshots| - 1].blocks
  }

  function MapBlocks(n: Norms, bs: seq<Block>, blocks: seq<Block>): seq<Block> {
    seq(|blocks|, i requires 0 <= i < |blocks| => Reconciled(n, bs, blocks[i]))
  }

  function ReconcileSnapshots(n: Norms, snapshots: seq<Snapshot>): seq<Snapshot> {
    seq(|snapshots|, i requires 0 <= i < |snapshots| =>
      snapshots[i].(blocks := MapBlocks(n, Flatten(snapshots), snapshots[i].blocks)))
  }
}
