/** The comparison loops, and the loop that selects the newest validated runtime. */
module VersionSelection {
  import opened Common
  import opened Versions

  lemma {:induction false} CoreAgreesUpTo(a: seq<nat>, b: seq<nat>, k: nat)
    requires k <= |a| == |b| && a[..k] == b[..k]
    ensures CompareCore(a, b) == CompareCore(a[k..], b[k..])
  {
    if k == 0 {
    } else {
      assert a[0] == a[..k][0] && b[0] == b[..k][0];
      assert a[1..][..k - 1] == a[..k][1..] && b[1..][..k - 1] == b[..k][1..];
      CoreAgreesUpTo(a[1..], b[1..], k - 1);
      assert a[1..][k - 1..] == a[k..] && b[1..][k - 1..] == b[k..];
    }
  }

  lemma {:induction false} IdentifiersAgreeUpTo(a: seq<string>, b: seq<string>, k: nat)
    requires k <= |a| && k <= |b| && forall i :: 0 <= i < k ==> CompareIdentifier(a[i], b[i]) == 0
    ensures CompareIdentifiers(a, b) == CompareIdentifiers(a[k..], b[k..])
  {
    if k == 0 {
    } else {
      assert forall i :: 0 <= i < k - 1 ==> a[1..][i] == a[i + 1] && b[1..][i] == b[i + 1];
      IdentifiersAgreeUpTo(a[1..], b[1..], k - 1);
      assert a[1..][k - 1..] == a[k..] && b[1..][k - 1..] == b[k..];
    }
  }

  /** A version as parsing delivers it. */
  type Parsed = v: Version | ThreePart(v) witness Invalid

  /** The core loop: the first differing number decides. */
  method CompareNumbers(a: seq<nat>, b: seq<nat>) returns (c: int)
    requires |a| == |b|
    ensures c == CompareCore(a, b)
  {
    var i := 0;
    while i < |a|
      invariant 0 <= i <= |a| && a[..i] == b[..i]
    {
      CoreAgreesUpTo(a, b, i);
      if a[i] > b[i] { return 1; }
      if a[i] < b[i] { return -1; }
      assert a[..i + 1] == a[..i] + [a[i]] && b[..i + 1] == b[..i] + [b[i]];
      i := i + 1;
    }
    CoreAgreesUpTo(a, b, |a|);
    return 0;
  }

  /** The prerelease loop: the first difference decides, then the number of identifiers. */
  method ComparePrereleases(a: seq<string>, b: seq<string>) returns (c: int)
    ensures c == CompareIdentifiers(a, b)
  {
    var k := 0;
    while k < |a| && k < |b|
      invariant 0 <= k <= |a| && k <= |b|
      invariant forall j :: 0 <= j < k ==> CompareIdentifier(a[j], b[j]) == 0
    {
      IdentifiersAgreeUpTo(a, b, k);
      var comparison := CompareIdentifier(a[k], b[k]);
      if comparison != 0 { return comparison; }
      k := k + 1;
    }
    IdentifiersAgreeUpTo(a, b, k);
    if |a| > |b| { return 1; }
    if |a| < |b| { return -1; }
    return 0;
  }

  method CompareParsed(a: Parsed, b: Parsed) returns (c: int)
    ensures c == Compare(a, b)
  {
    if a.Invalid? && b.Invalid? { return 0; }
    if a.Valid? && b.Invalid? { return 1; }
    if a.Invalid? { return -1; }
    c := CompareNumbers(a.core, b.core);
    if c != 0 { return c; }
    if |a.prerelease| == 0 && |b.prerelease| > 0 { return 1; }
    if |a.prerelease| > 0 && |b.prerelease| == 0 { return -1; }
    c := ComparePrereleases(a.prerelease, b.prerelease);
  }

  method CompareCodexVersions(left: string, right: string) returns (c: int)
    ensures c == Compare(Parse(left), Parse(right))
  {
    ParsedIsThreePart(left);
    ParsedIsThreePart(right);
    c := CompareParsed(Parse(left), Parse(right));
  }

  // ---- selection -------------------------------------------------------------------------------

  /** What resolving and validating one candidate came to; its version is already parsed. */
  datatype Outcome =
    | Rejected(path: string, reason: string)
    | Validated(path: string, version: Parsed, modified: int)

  /** By version, then by file time. */
  function Rank(a: Outcome, b: Outcome): int
    requires a.Validated? && b.Validated?
  {
    var c := Compare(a.version, b.version);
    if c != 0 then c else Sign(a.modified, b.modified)
  }

  lemma RankIsOrdered(a: Outcome, b: Outcome, c: Outcome)
    requires a.Validated? && b.Validated? && c.Validated?
    ensures Rank(a, b) == -Rank(b, a)
    ensures Rank(a, b) <= 0 && Rank(b, c) <= 0 ==> Rank(a, c) <= 0
    ensures Rank(a, b) <= 0 && Rank(b, c) < 0 ==> Rank(a, c) < 0
  {
    var x, y, z := a.version, b.version, c.version;
    VersionsAreTotallyPreordered(x, y, z);
    VersionsAreTotallyPreordered(y, z, x);
    VersionsAreTotallyPreordered(z, x, y);
    VersionsAreTotallyPreordered(z, y, x);
    VersionsAreTotallyPreordered(y, x, z);
    VersionsAreTotallyPreordered(x, z, y);
  }

  /** The first of the best validated candidates. */
  predicate FirstMaximal(outcomes: seq<Outcome>, best: nat) {
    && best < |outcomes| && outcomes[best].Validated?
    && (forall j :: 0 <= j < |outcomes| && outcomes[j].Validated? ==> Rank(outcomes[j], outcomes[best]) <= 0)
    && (forall j :: 0 <= j < best && outcomes[j].Validated? ==> Rank(outcomes[j], outcomes[best]) < 0)
  }

  lemma FirstMaximalIsUnique(outcomes: seq<Outcome>, a: nat, b: nat)
    requires FirstMaximal(outcomes, a) && FirstMaximal(outcomes, b)
    ensures a == b
  {
    RankIsOrdered(outcomes[a], outcomes[b], outcomes[a]);
  }

  function Attempts(outcomes: seq<Outcome>): seq<Outcome> {
    if outcomes == [] then [] else
      Attempts(outcomes[..|outcomes| - 1]) +
      (if outcomes[|outcomes| - 1].Rejected? then [outcomes[|outcomes| - 1]] else [])
  }

  /** Where the rejected candidates stand. */
  function RejectedAt(outcomes: seq<Outcome>): (at: seq<nat>)
    ensures forall k :: 0 <= k < |at| ==> at[k] < |outcomes|
  {
    if outcomes == [] then [] else
      RejectedAt(outcomes[..|outcomes| - 1]) + (if outcomes[|outcomes| - 1].Rejected? then [|outcomes| - 1] else [])
  }

  /** The attempt records are exactly the rejected candidates, one each and in their order. */
  lemma {:induction false} AttemptsAreTheRejected(outcomes: seq<Outcome>)
    ensures var at, attempts := RejectedAt(outcomes), Attempts(outcomes);
      && |attempts| == |at|
      && (forall k :: 0 <= k < |at| ==> outcomes[at[k]].Rejected? && attempts[k] == outcomes[at[k]])
      && (forall k, l :: 0 <= k < l < |at| ==> at[k] < at[l])
      && (forall i :: 0 <= i < |outcomes| && outcomes[i].Rejected? ==> i in at)
  {
    if outcomes == [] {
    } else {
      var before := outcomes[..|outcomes| - 1];
      AttemptsAreTheRejected(before);
      assert forall i :: 0 <= i < |before| ==> before[i] == outcomes[i];
    }
  }

  /** The selected candidate has the highest version, the latest file time among those, and is the first of the rest. */
  lemma SelectedIsNewest(outcomes: seq<Outcome>, best: nat, j: nat)
    requires FirstMaximal(outcomes, best) && j < |outcomes| && outcomes[j].Validated?
    ensures outcomes[best].Validated?
    ensures var c := Compare(outcomes[j].version, outcomes[best].version);
      && c <= 0
      && (c == 0 ==> outcomes[j].modified <= outcomes[best].modified)
      && (c == 0 && outcomes[j].modified == outcomes[best].modified ==> best <= j)
  {
  }

  predicate NoneValidated(outcomes: seq<Outcome>) { forall j :: 0 <= j < |outcomes| ==> outcomes[j].Rejected? }

  lemma MaximalOfPrefix(outcomes: seq<Outcome>, k: nat, best: nat)
    requires k < |outcomes| && FirstMaximal(outcomes[..k], best) && outcomes[k].Validated?
    ensures Rank(outcomes[k], outcomes[best]) > 0 ==> FirstMaximal(outcomes[..k + 1], k)
    ensures Rank(outcomes[k], outcomes[best]) <= 0 ==> FirstMaximal(outcomes[..k + 1], best)
  {
    var now := outcomes[..k + 1];
    assert forall j :: 0 <= j < k ==> now[j] == outcomes[..k][j];
    if Rank(outcomes[k], outcomes[best]) > 0 {
      RankIsOrdered(outcomes[k], outcomes[best], outcomes[k]);
      RankIsOrdered(outcomes[k], outcomes[k], outcomes[k]);
      forall j | 0 <= j < k && now[j].Validated? ensures Rank(now[j], now[k]) < 0 {
        RankIsOrdered(now[j], outcomes[best], outcomes[k]);
      }
    }
  }

  /** What the running best must be for the outcomes seen so far. */
  predicate SelectedFrom(outcomes: seq<Outcome>, selected: Option<nat>) {
    if selected.None? then NoneValidated(outcomes) else FirstMaximal(outcomes, selected.value)
  }

  lemma RejectedChangesNothing(outcomes: seq<Outcome>, k: nat, selected: Option<nat>)
    requires k < |outcomes| && SelectedFrom(outcomes[..k], selected) && outcomes[k].Rejected?
    ensures SelectedFrom(outcomes[..k + 1], selected)
  {
    assert forall j :: 0 <= j < k ==> outcomes[..k + 1][j] == outcomes[..k][j];
  }

  lemma FirstValidatedIsBest(outcomes: seq<Outcome>, k: nat)
    requires k < |outcomes| && NoneValidated(outcomes[..k]) && outcomes[k].Validated?
    ensures FirstMaximal(outcomes[..k + 1], k)
  {
    RankIsOrdered(outcomes[k], outcomes[k], outcomes[k]);
    assert forall j :: 0 <= j < k ==> outcomes[..k + 1][j] == outcomes[..k][j];
  }

  /** Keeps the first best candidate and one attempt record per rejected one. */
  method SelectHighestVersion(outcomes: seq<Outcome>, attempts: seq<Outcome>)
      returns (selected: Option<nat>, attempts': seq<Outcome>)
    ensures attempts' == attempts + Attempts(outcomes)
    ensures selected.None? <==> NoneValidated(outcomes)
    ensures selected.Some? ==> FirstMaximal(outcomes, selected.value)
  {
    selected, attempts' := None, attempts;
    for k := 0 to |outcomes|
      invariant attempts' == attempts + Attempts(outcomes[..k])
      invariant SelectedFrom(outcomes[..k], selected) && (selected.Some? ==> selected.value < k)
    {
      assert outcomes[..k + 1][..k] == outcomes[..k];
      match outcomes[k]
      case Rejected(_, _) =>
        attempts' := attempts' + [outcomes[k]];
        RejectedChangesNothing(outcomes, k, selected);
      case Validated(_, version, modified) =>
        if selected.None? {
          FirstValidatedIsBest(outcomes, k);
          selected := Some(k);
        } else {
          MaximalOfPrefix(outcomes, k, selected.value);
          var best := outcomes[selected.value];
          var comparison := CompareParsed(version, best.version);
          if comparison > 0 || (comparison == 0 && modified > best.modified) { selected := Some(k); }
        }
    }
    assert outcomes[..|outcomes|] == outcomes;
  }
}
