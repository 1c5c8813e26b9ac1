/** Who is the nearest owner of an issue, said about the mentions themselves. */
module IssueNearest {
  import opened Common
  import opened IssueTokens
  import opened IssueOwners

  /** Behind the issue, and no other mention behind it is nearer. */
  predicate LastBehind(ms: seq<Mention>, index: nat, m: Mention) {
    m in ms && m.end <= index && forall x <- ms :: x.end <= index ==> x.end <= m.end
  }

  /** Ahead of the issue, and no other mention ahead is nearer. */
  predicate FirstAhead(ms: seq<Mention>, index: nat, m: Mention) {
    m in ms && m.start > index && forall x <- ms :: x.start > index ==> m.start <= x.start
  }

  /** An owner ahead counts within eight tokens, if nothing stands behind the issue or a preposition leads to it. */
  predicate OwnsAhead(ms: seq<Mention>, tokens: seq<Token>, index: nat, m: Mention)
    requires InBounds(tokens, ms)
  {
    && FirstAhead(ms, index, m) && m.start - index <= 8 && 0 < m.start <= |tokens|
    && ((forall x <- ms :: x.end > index)
        || tokens[m.start - 1].value == "for" || tokens[m.start - 1].value == "of" || tokens[m.start - 1].value == "in")
  }

  /** An owner behind counts within sixteen tokens, if none ahead does. */
  predicate OwnsBehind(ms: seq<Mention>, tokens: seq<Token>, index: nat, m: Mention)
    requires InBounds(tokens, ms)
  {
    LastBehind(ms, index, m) && index - m.end <= 16 && forall x <- ms :: !OwnsAhead(ms, tokens, index, x)
  }

  /** The loop's search from behind finds the last mention that ends before the issue. */
  lemma {:induction false} LastBeforeIs(tokens: seq<Token>, ms: seq<Mention>, index: nat, n: nat)
    requires n <= |ms| && WellPlaced(tokens, 0, ms)
    ensures var p := LastBefore(ms, index, n);
      if p.None? then forall k :: 0 <= k < n ==> ms[k].end > index
      else p.value.end <= index && (exists k :: 0 <= k < n && ms[k] == p.value)
           && forall k :: 0 <= k < n && ms[k].end <= index ==> ms[k].end <= p.value.end
  {
    if n == 0 {
    } else if ms[n - 1].end <= index {
      assert forall k :: 0 <= k < n - 1 ==> ms[k].end <= ms[n - 1].start;
    } else {
      LastBeforeIs(tokens, ms, index, n - 1);
    }
  }

  /** A mention ahead of the issue is followed by none that ends before it. */
  lemma NothingBehindAfter(tokens: seq<Token>, ms: seq<Mention>, index: nat, k: nat)
    requires WellPlaced(tokens, 0, ms) && k < |ms| && ms[k].start > index
    ensures forall l :: k <= l < |ms| ==> ms[l].end > index && ms[l].start >= ms[k].start
  {
    assert forall l :: k < l < |ms| ==> ms[k].end <= ms[l].start;
  }

  /** Where the search ahead stops. */
  lemma SearchEnds(tokens: seq<Token>, ms: seq<Mention>, index: nat) returns (k: nat, previous: Option<Mention>)
    requires WellPlaced(tokens, 0, ms)
    ensures k == FirstAfter(ms, index, 0) && previous == LastBefore(ms, index, k)
    ensures k < |ms| ==> FirstAhead(ms, index, ms[k])
    ensures k == |ms| ==> forall x <- ms :: x.start <= index
    ensures previous.Some? ==> LastBehind(ms, index, previous.value)
    ensures previous.None? ==> forall x <- ms :: x.end > index
  {
    k := FirstAfter(ms, index, 0);
    previous := LastBefore(ms, index, k);
    LastBeforeIs(tokens, ms, index, k);
    if k < |ms| { NothingBehindAfter(tokens, ms, index, k); }
  }

  lemma SameAhead(ms: seq<Mention>, tokens: seq<Token>, index: nat, a: Mention, b: Mention)
    requires WellPlaced(tokens, 0, ms) && FirstAhead(ms, index, a) && FirstAhead(ms, index, b)
    ensures a == b
  {
    var i :| 0 <= i < |ms| && ms[i] == a;
    var j :| 0 <= j < |ms| && ms[j] == b;
  }

  lemma SameBehind(ms: seq<Mention>, tokens: seq<Token>, index: nat, a: Mention, b: Mention)
    requires WellPlaced(tokens, 0, ms) && LastBehind(ms, index, a) && LastBehind(ms, index, b)
    ensures a == b
  {
    var i :| 0 <= i < |ms| && ms[i] == a;
    var j :| 0 <= j < |ms| && ms[j] == b;
  }

  /**
   Among ordered disjoint mentions the owner found is exactly the one that counts: the nearest ahead
   where one counts there, else the nearest behind; and none is found exactly if neither counts.
   */
  lemma NearestIs(ms: seq<Mention>, tokens: seq<Token>, index: nat, m: Mention)
    requires WellPlaced(tokens, 0, ms)
    ensures Nearest(index, ms, tokens, false) == Some(m) <==> OwnsAhead(ms, tokens, index, m) || OwnsBehind(ms, tokens, index, m)
    ensures Nearest(index, ms, tokens, false).None? <==>
              forall x <- ms :: !OwnsAhead(ms, tokens, index, x) && !OwnsBehind(ms, tokens, index, x)
  {
    var k, previous := SearchEnds(tokens, ms, index);
    var found := Nearest(index, ms, tokens, false);
    if k < |ms| {
      assert OwnsAhead(ms, tokens, index, ms[k]) <==>
        ms[k].start - index <= 8 && (previous.None? || Preposition(tokens[ms[k].start - 1].value));
      forall x | x in ms ensures OwnsAhead(ms, tokens, index, x) ==> x == ms[k] {
        if OwnsAhead(ms, tokens, index, x) { SameAhead(ms, tokens, index, x, ms[k]); }
      }
    }
    forall x | x in ms ensures OwnsBehind(ms, tokens, index, x) ==> previous == Some(x) {
      if OwnsBehind(ms, tokens, index, x) { SameBehind(ms, tokens, index, x, previous.value); }
    }
    assert found.Some? ==> found.value in ms;
  }

  /** A sole inherited owner owns whatever its distance. */
  lemma InheritedIs(m: Mention, tokens: seq<Token>, index: nat)
    ensures Nearest(index, [m], tokens, true) == Some(m)
  {
  }
}
