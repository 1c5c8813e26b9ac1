/**
 Load pacing: the spacing decision with its saturating backoff over a leading run of temporary
 failures. Durations and instants are integers; the jitter fraction is a real or not a number.
 */
module Backoff {
  import opened Common

  datatype Policy = Policy(enabled: bool, interval: int, jitter: int, backoffBase: int, backoffMax: int)

  datatype Completion = Completion(id: string, at: int, code: string, retryable: bool)

  datatype Decision = Decision(allowed: bool, notBefore: Option<int>, reason: string)

  /** A floating point sample. */
  datatype Sample = NotANumber | Number(value: real)

  // ---- classification ----------------------------------------------------------------------------

  predicate Temporary(code: string, retryable: bool) {
    retryable &&
    TrimPrefix(TrimPrefix(code, "headless_"), "quiet_") in
      {"capture_timeout", "navigation_timeout", "worker_timeout", "transport_unavailable", "capture_lease_expired"}
  }

  const BUDGET_CODES: seq<string> :=
    ["capture_timeout", "navigation_timeout", "worker_timeout", "transport_unavailable", "capture_lease_expired"]

  const ROUTE_PREFIXES: seq<string> := ["", "headless_", "quiet_", "headless_quiet_"]

  lemma PrefixGoes(prefix: string, s: string)
    ensures TrimPrefix(prefix + s, prefix) == s
  {
    assert prefix <= prefix + s;
  }

  /** A code of the budget is temporary behind either route prefix and behind both in this order. */
  lemma BudgetCodesAreTemporary(i: nat, j: nat)
    requires i < |BUDGET_CODES| && j < |ROUTE_PREFIXES|
    ensures Temporary(ROUTE_PREFIXES[j] + BUDGET_CODES[i], true)
  {
    var base, prefix := BUDGET_CODES[i], ROUTE_PREFIXES[j];
    assert base[0] != 'h' && base[0] != 'q';
    if j == 0 {
      assert prefix + base == base;
    } else if j == 1 {
      PrefixGoes("headless_", base);
    } else if j == 2 {
      PrefixGoes("quiet_", base);
      assert (prefix + base)[0] == 'q';
    } else {
      assert prefix + base == "headless_" + ("quiet_" + base);
      PrefixGoes("headless_", "quiet_" + base);
      PrefixGoes("quiet_", base);
    }
  }

  /** What trimming removes is one of the route prefixes. */
  lemma TrimmedPrefix(code: string) returns (j: nat)
    ensures j < |ROUTE_PREFIXES| && code == ROUTE_PREFIXES[j] + TrimPrefix(TrimPrefix(code, "headless_"), "quiet_")
  {
    var once := TrimPrefix(code, "headless_");
    var base := TrimPrefix(once, "quiet_");
    if once == code {
      j := if base == once then 0 else 2;
    } else {
      assert code == "headless_" + once;
      j := if base == once then 1 else 3;
      if base != once { assert code == "headless_" + ("quiet_" + base); }
    }
  }

  /** Conversely nothing else is temporary, and nothing at all that must not be retried. */
  lemma TemporaryCodesAreBudgetCodes(code: string, retryable: bool) returns (i: nat, j: nat)
    requires Temporary(code, retryable)
    ensures retryable && i < |BUDGET_CODES| && j < |ROUTE_PREFIXES| && code == ROUTE_PREFIXES[j] + BUDGET_CODES[i]
  {
    j := TrimmedPrefix(code);
    var base := TrimPrefix(TrimPrefix(code, "headless_"), "quiet_");
    i := if base == BUDGET_CODES[0] then 0 else if base == BUDGET_CODES[1] then 1 else if base == BUDGET_CODES[2] then 2
         else if base == BUDGET_CODES[3] then 3 else 4;
  }

  predicate FailedTemporarily(c: Completion) { Temporary(c.code, c.retryable) }

  /** How many of the newest completions failed temporarily in a row. */
  function LeadingRun(recent: seq<Completion>): nat {
    if recent == [] || !FailedTemporarily(recent[0]) then 0 else 1 + LeadingRun(recent[1..])
  }

  lemma {:induction false} LeadingRunIsMaximal(recent: seq<Completion>)
    ensures var k := LeadingRun(recent);
      && k <= |recent|
      && (forall i :: 0 <= i < k ==> FailedTemporarily(recent[i]))
      && (k < |recent| ==> !FailedTemporarily(recent[k]))
  {
    if recent == [] || !FailedTemporarily(recent[0]) {
      assert LeadingRun(recent) == 0;
    } else {
      LeadingRunIsMaximal(recent[1..]);
      assert forall i :: 0 < i < |recent| ==> recent[i] == recent[1..][i - 1];
    }
  }

  // ---- the backoff loop --------------------------------------------------------------------------

  /** Division as the source's integers do it, towards zero. */
  function HalfTowardsZero(n: int): int { if n >= 0 then n / 2 else -((-n) / 2) }

  function NextBackoff(p: Policy, backoff: int): int {
    var raised :=
      if backoff == 0 then p.backoffBase
      else if backoff < HalfTowardsZero(p.backoffMax) then backoff * 2
      else p.backoffMax;
    if raised > p.backoffMax then p.backoffMax else raised
  }

  /** The loop variable after k temporary failures. */
  function BackoffAfter(p: Policy, k: nat): int {
    if k == 0 then 0 else NextBackoff(p, BackoffAfter(p, k - 1))
  }

  function Pow2(k: nat): nat { if k == 0 then 1 else 2 * Pow2(k - 1) }

  function Min(a: int, b: int): int { if a < b then a else b }
  function Max(a: int, b: int): int { if a > b then a else b }

  /** The closed form that the loop is meant to compute for k >= 1. */
  function Saturated(p: Policy, k: nat): int
    requires k >= 1
  {
    Min(p.backoffBase * Pow2(k - 1), p.backoffMax)
  }

  predicate Sensible(p: Policy) { 0 < p.backoffBase <= p.backoffMax }

  /** The doubling sequence steps on the number just below the maximum. */
  predicate HitsJustBelowMax(p: Policy, j: nat) { p.backoffBase * Pow2(j + 1) == p.backoffMax - 1 }

  /** No intermediate value leaves the range up to the maximum. */
  lemma {:induction false} BackoffInRange(p: Policy, k: nat)
    requires Sensible(p) && k >= 1
    ensures 0 < BackoffAfter(p, k) <= p.backoffMax
    ensures BackoffAfter(p, k) < HalfTowardsZero(p.backoffMax) ==> BackoffAfter(p, k) * 2 < p.backoffMax
  {
    if k > 1 { BackoffInRange(p, k - 1); }
  }

  lemma {:induction false} BackoffIsMonotone(p: Policy, k: nat, l: nat)
    requires Sensible(p) && k <= l
    ensures BackoffAfter(p, k) <= BackoffAfter(p, l)
    decreases l
  {
    if k < l {
      BackoffIsMonotone(p, k, l - 1);
      if l > 1 { BackoffInRange(p, l - 1); }
    }
  }

  lemma Doubles(p: Policy, k: nat)
    ensures p.backoffBase * Pow2(k + 1) == 2 * (p.backoffBase * Pow2(k))
  {
    assert Pow2(k + 1) == 2 * Pow2(k);
  }

  /** If the doubling never steps just below the maximum, the loop is the closed form. */
  lemma {:induction false} LoopIsClosedForm(p: Policy, k: nat)
    requires Sensible(p) && k >= 1
    requires forall j :: 0 <= j < k - 1 ==> !HitsJustBelowMax(p, j)
    ensures BackoffAfter(p, k) == Saturated(p, k)
  {
    if k > 1 {
      LoopIsClosedForm(p, k - 1);
      BackoffInRange(p, k - 1);
      Doubles(p, k - 2);
      assert !HitsJustBelowMax(p, k - 2);
    } else {
      assert BackoffAfter(p, 0) == 0 && Pow2(0) == 1;
    }
  }

  /** If it does, the loop jumps to the maximum one step early. */
  lemma LoopOvershoots(p: Policy, j: nat)
    requires Sensible(p) && HitsJustBelowMax(p, j)
    ensures BackoffAfter(p, j + 2) == p.backoffMax == Saturated(p, j + 2) + 1
  {
    Doubles(p, j);
    forall i | 0 <= i < j ensures !HitsJustBelowMax(p, i) { Pow2Grows(p, i, j); }
    LoopIsClosedForm(p, j + 1);
  }

  lemma {:induction false} Pow2Grows(p: Policy, i: nat, j: nat)
    requires Sensible(p) && i < j
    ensures p.backoffBase * Pow2(i + 1) < p.backoffBase * Pow2(j + 1)
    decreases j
  {
    Doubles(p, j);
    Pow2Positive(p, j);
    if i < j - 1 { Pow2Grows(p, i, j - 1); }
  }

  lemma {:induction false} Pow2Positive(p: Policy, j: nat)
    requires Sensible(p)
    ensures p.backoffBase * Pow2(j) > 0
  {
    if j == 0 {
    } else {
      Pow2Positive(p, j - 1);
      Doubles(p, j - 1);
    }
  }

  /**
   The loop computes min(base * 2^(k-1), max) for every run length exactly when no doubling of
   the base lands on max - 1; an even maximum guarantees that.
   */
  lemma BackoffIsExactIff(p: Policy)
    requires Sensible(p)
    ensures (forall k: nat :: k >= 1 ==> BackoffAfter(p, k) == Saturated(p, k)) <==> (forall j: nat :: !HitsJustBelowMax(p, j))
    ensures p.backoffMax % 2 == 0 ==> forall j: nat :: !HitsJustBelowMax(p, j)
  {
    if forall j: nat :: !HitsJustBelowMax(p, j) {
      forall k: nat | k >= 1 ensures BackoffAfter(p, k) == Saturated(p, k) { LoopIsClosedForm(p, k); }
    } else {
      var j: nat :| HitsJustBelowMax(p, j);
      LoopOvershoots(p, j);
    }
    if p.backoffMax % 2 == 0 {
      forall j: nat ensures !HitsJustBelowMax(p, j) { Doubles(p, j); }
    }
  }

  // ---- the decision ------------------------------------------------------------------------------

  function Fraction(s: Sample): real {
    if s.NotANumber? || s.value < 0.0 then 0.0 else if s.value > 1.0 then 1.0 else s.value
  }

  /** Conversion of a real duration to whole units, towards zero. */
  function Truncate(r: real): int { if r >= 0.0 then r.Floor else -((-r).Floor) }

  function Share(length: int, fraction: real): int { Truncate(length as real * fraction) }

  function Jitter(p: Policy, s: Sample): int { Share(p.jitter, Fraction(s)) }

  function Spacing(p: Policy, k: nat): int { Max(p.interval, BackoffAfter(p, k)) }

  function Delay(p: Policy, k: nat, s: Sample): int { Spacing(p, k) + Jitter(p, s) }

  /** The instant from which a capture is admitted; the jitter is drawn from the newest completion's id. */
  function Until(p: Policy, recent: seq<Completion>, sample: string -> Sample): int
    requires recent != []
  {
    recent[0].at + Delay(p, LeadingRun(recent), sample(recent[0].id))
  }

  /** Whether a capture may start. */
  predicate Admits(p: Policy, now: int, active: bool, recent: seq<Completion>, sample: string -> Sample) {
    !p.enabled || (!active && (recent == [] || now >= Until(p, recent, sample)))
  }

  /** One turn of the backoff loop. */
  method Raise(p: Policy, current: int) returns (backoff: int)
    ensures backoff == NextBackoff(p, current)
  {
    if current == 0 { backoff := p.backoffBase; }
    else if current < HalfTowardsZero(p.backoffMax) { backoff := current * 2; }
    else { backoff := p.backoffMax; }
    if backoff > p.backoffMax { backoff := p.backoffMax; }
  }

  /** The backoff loop over the newest completions. */
  method RunBackoff(p: Policy, recent: seq<Completion>) returns (backoff: int)
    ensures backoff == BackoffAfter(p, LeadingRun(recent))
  {
    backoff := 0;
    var i: nat := 0;
    while i < |recent| && FailedTemporarily(recent[i])
      invariant i <= |recent| && LeadingRun(recent) == i + LeadingRun(recent[i..])
      invariant backoff == BackoffAfter(p, i)
    {
      assert recent[i..][1..] == recent[i + 1..];
      backoff := Raise(p, backoff);
      i := i + 1;
    }
  }

  /** Admission, its instant and its reason. */
  method Decide(p: Policy, now: int, active: bool, recent: seq<Completion>, sample: string -> Sample) returns (d: Decision)
    ensures d.allowed <==> Admits(p, now, active, recent, sample)
    ensures d.notBefore.Some? <==> p.enabled && !active && !d.allowed
    ensures d.notBefore.Some? ==> d.notBefore.value == Until(p, recent, sample)
    ensures p.enabled && active ==> d.reason == "capture_active"
    ensures d.notBefore.Some? ==>
              d.reason == (if BackoffAfter(p, LeadingRun(recent)) > p.interval then "temporary_backoff" else "capture_spacing")
  {
    if !p.enabled { return Decision(true, None, ""); }
    if active { return Decision(false, None, "capture_active"); }
    if |recent| == 0 { return Decision(true, None, ""); }
    var delay, reason := p.interval, "capture_spacing";
    var backoff := RunBackoff(p, recent);
    if backoff > delay {
      delay := backoff;
      reason := "temporary_backoff";
    }
    delay := delay + Jitter(p, sample(recent[0].id));
    var until := recent[0].at + delay;
    if now < until { return Decision(false, Some(until), reason); }
    return Decision(true, None, "");
  }

  lemma FractionInRange(s: Sample)
    ensures 0.0 <= Fraction(s) <= 1.0
  {
  }

  /** A share of a length is at most that length. */
  lemma ShareIsBounded(length: real, share: real)
    requires length >= 0.0 && 0.0 <= share <= 1.0
    ensures 0.0 <= length * share <= length
  {
    assert length * share + length * (1.0 - share) == length;
  }

  /** Truncating a number between 0 and n leaves it there. */
  lemma TruncateInRange(r: real, n: int)
    requires 0.0 <= r <= n as real
    ensures 0 <= Truncate(r) <= n
  {
    var f := r.Floor;
    assert f as real <= r < (f + 1) as real;
    assert f as real <= n as real;
  }

  /** All of a length, and none of it. */
  lemma FullShare(length: int)
    ensures Share(length, 1.0) == length && Share(length, 0.0) == 0
  {
    assert length as real * 1.0 == length as real && length as real * 0.0 == 0.0;
    assert (length as real).Floor == length && (-(length as real)) == (-length) as real;
    assert ((-length) as real).Floor == -length;
  }

  /** Any other share of a length is cut to whole units. */
  lemma ShareIsWhole(length: nat, fraction: real)
    requires 0.0 <= fraction <= 1.0
    ensures Share(length, fraction) as real <= length as real * fraction < (Share(length, fraction) + 1) as real
  {
    var r := length as real * fraction;
    ShareIsBounded(length as real, fraction);
    FloorIs(r);
  }

  lemma FloorIs(r: real)
    requires r >= 0.0
    ensures Truncate(r) as real <= r < (Truncate(r) + 1) as real
  {
  }

  lemma JitterIsShare(p: Policy, s: Sample, f: real)
    requires Fraction(s) == f
    ensures Jitter(p, s) == Share(p.jitter, f)
  {
  }

  /** A sample counts between zero and one; anything outside is cut, and what is not a number counts nothing. */
  lemma JitterIsCut(p: Policy, s: Sample)
    ensures s.NotANumber? || s.value <= 0.0 ==> Jitter(p, s) == 0
    ensures s.Number? && s.value >= 1.0 ==> Jitter(p, s) == p.jitter
    ensures s.Number? && 0.0 <= s.value <= 1.0 ==> Jitter(p, s) == Share(p.jitter, s.value)
  {
    FullShare(p.jitter);
    JitterIsShare(p, s, if s.NotANumber? || s.value <= 0.0 then 0.0 else if s.value >= 1.0 then 1.0 else s.value);
  }

  lemma JitterInRange(p: Policy, s: Sample)
    requires p.jitter >= 0
    ensures 0 <= Jitter(p, s) <= p.jitter
  {
    FractionInRange(s);
    ShareIsBounded(p.jitter as real, Fraction(s));
    TruncateInRange(p.jitter as real * Fraction(s), p.jitter);
  }

  lemma SpacingIsBoundedAndMonotone(p: Policy, k: nat, l: nat)
    requires Sensible(p) && k <= l
    ensures p.interval <= Spacing(p, k) <= Spacing(p, l) <= Max(p.interval, p.backoffMax)
    ensures BackoffAfter(p, k) <= Spacing(p, k) && (Spacing(p, k) == p.interval || Spacing(p, k) == BackoffAfter(p, k))
  {
    BackoffIsMonotone(p, k, l);
    if l >= 1 { BackoffInRange(p, l); }
  }

  /** The delay lies between the interval and max(interval, maximum) plus jitter, and grows with the run. */
  lemma DelayIsBoundedAndMonotone(p: Policy, k: nat, l: nat, s: Sample)
    requires Sensible(p) && p.jitter >= 0 && k <= l
    ensures p.interval <= Delay(p, k, s) <= Delay(p, l, s) <= Max(p.interval, p.backoffMax) + p.jitter
  {
    SpacingIsBoundedAndMonotone(p, k, l);
    var j := Jitter(p, s);
    assert 0 <= j <= p.jitter by { JitterInRange(p, s); }
  }

  /**
   For a history the decision turns from refusal to admission at most once, at `Until`, and never
   back; a disabled policy and an empty history always admit, a running capture never does.
   */
  lemma AdmissionNeverReverts(p: Policy, now: int, later: int, active: bool, recent: seq<Completion>, sample: string -> Sample)
    requires now <= later
    ensures Admits(p, now, active, recent, sample) ==> Admits(p, later, active, recent, sample)
    ensures !Admits(p, now, active, recent, sample) && Admits(p, later, active, recent, sample) ==>
              recent != [] && now < Until(p, recent, sample) <= later
    ensures p.enabled && active ==> !Admits(p, later, active, recent, sample)
    ensures !p.enabled || (!active && recent == []) ==> Admits(p, now, active, recent, sample)
  {
  }

  // ---- one more failure ----------------------------------------------------------------------------

  lemma RunOfOneMore(newest: Completion, recent: seq<Completion>)
    requires FailedTemporarily(newest)
    ensures LeadingRun([newest] + recent) == LeadingRun(recent) + 1
  {
    assert ([newest] + recent)[1..] == recent;
  }

  /** How much later a new temporary failure starts its spacing, and how much longer that spacing is. */
  function Postponement(p: Policy, newest: Completion, recent: seq<Completion>): int
    requires recent != []
  {
    var k := LeadingRun(recent);
    newest.at - recent[0].at + (Spacing(p, k + 1) - Spacing(p, k))
  }

  /** One more temporary failure admits earlier exactly when the jitter shrinks by more than the failure postpones. */
  lemma FurtherFailureHurriesIff(p: Policy, newest: Completion, recent: seq<Completion>, sample: string -> Sample)
    requires recent != [] && FailedTemporarily(newest)
    ensures Until(p, [newest] + recent, sample) < Until(p, recent, sample) <==>
            Jitter(p, sample(recent[0].id)) - Jitter(p, sample(newest.id)) > Postponement(p, newest, recent)
  {
    RunOfOneMore(newest, recent);
  }

  /** The whole jitter is drawn for a sample of one, none of it for a sample of zero. */
  lemma FullJitter(p: Policy)
    ensures Jitter(p, Number(1.0)) == p.jitter && Jitter(p, Number(0.0)) == 0
  {
    FullShare(p.jitter);
    JitterIsShare(p, Number(1.0), 1.0);
    JitterIsShare(p, Number(0.0), 0.0);
  }

  /**
   Whatever the samples are, a further temporary failure with another id never admits earlier, if
   and only if it postpones by at least the configured jitter.
   */
  lemma FurtherFailureNeverHurriesIff(p: Policy, newest: Completion, recent: seq<Completion>)
    requires p.jitter >= 0 && recent != [] && FailedTemporarily(newest) && newest.id != recent[0].id
    ensures (forall sample: string -> Sample :: Until(p, [newest] + recent, sample) >= Until(p, recent, sample)) <==>
            Postponement(p, newest, recent) >= p.jitter
  {
    if Postponement(p, newest, recent) >= p.jitter {
      forall sample: string -> Sample ensures Until(p, [newest] + recent, sample) >= Until(p, recent, sample) {
        JitterInRange(p, sample(recent[0].id));
        JitterInRange(p, sample(newest.id));
        FurtherFailureHurriesIff(p, newest, recent, sample);
      }
    } else {
      var sample := (id: string) => if id == newest.id then Number(0.0) else Number(1.0);
      FullJitter(p);
      FurtherFailureHurriesIff(p, newest, recent, sample);
    }
  }

  /** A failure of a capture that was itself admitted never hurries: it completes after `Until`. */
  lemma AdmittedFailureNeverHurries(p: Policy, newest: Completion, recent: seq<Completion>, sample: string -> Sample)
    requires Sensible(p) && p.jitter >= 0 && recent != [] && FailedTemporarily(newest)
    requires newest.at >= Until(p, recent, sample)
    ensures Until(p, [newest] + recent, sample) > newest.at >= Until(p, recent, sample)
  {
    RunOfOneMore(newest, recent);
    BackoffInRange(p, LeadingRun(recent) + 1);
    JitterInRange(p, sample(newest.id));
  }

  /** A failure one unit after a first one moves admission from 120 back to 61. */
  lemma FurtherFailureCanHurry(code: string)
    requires Temporary(code, true)
    ensures var p, first, second := Policy(true, 60, 60, 1, 2), Completion("a", 0, "", false), Completion("b", 1, code, true);
            var sample := (id: string) => if id == "b" then Number(0.0) else Number(1.0);
            Until(p, [first], sample) == 120 && Until(p, [second] + [first], sample) == 61
  {
    var p, first, second := Policy(true, 60, 60, 1, 2), Completion("a", 0, "", false), Completion("b", 1, code, true);
    FullJitter(p);
    assert LeadingRun([first]) == 0;
    RunOfOneMore(second, [first]);
    assert BackoffAfter(p, 0) == 0 && BackoffAfter(p, 1) == 1;
  }
}
