/** Clauses and the owners that count in them, said about the mentions of the whole field. */
module IssueClauses {
  import opened Common
  import opened IssueTokens
  import opened IssueOwners
  import opened IssueEvidence
  import opened IssueNearest

  /** A token that no other token of its clause precedes. */
  predicate ClauseStart(w: View, s: nat) { s < |w.tokens| && (s == 0 || !Continues(w, s)) }

  /** The tokens of the clause that starts at s. */
  predicate InClause(w: View, s: nat, index: nat) { ClauseStart(w, s) && s <= index < ClauseEnd(w, s + 1) }

  /** No clause break lies between an issue token and an owner mention. */
  predicate SameClause(w: View, index: nat, m: Mention)
    requires index < |w.tokens| && m.start < m.end <= |w.tokens|
  {
    forall j :: (if index < m.start then index else m.start) < j <= (if index < m.end then m.end - 1 else index) ==>
      Continues(w, j)
  }

  /** A mention that starts in a clause ends in it, because a clause never ends inside a mention. */
  lemma LocalMentionEndsInClause(w: View, start: nat, m: Mention)
    requires ViewFits(w) && start < |w.tokens| && m in w.mentions && start <= m.start < ClauseEnd(w, start + 1)
    ensures m.end <= ClauseEnd(w, start + 1)
  {
    var end := ClauseEnd(w, start + 1);
    var k :| 0 <= k < |w.mentions| && w.mentions[k] == m;
    if end < |w.tokens| { assert !Within(end, w.mentions); assert !(w.mentions[k].start < end < w.mentions[k].end); }
  }

  lemma LocalMentionIsInClause(w: View, start: nat, m: Mention, index: nat)
    requires ViewFits(w) && start < |w.tokens| && m in w.mentions
    requires start <= m.start < ClauseEnd(w, start + 1) && start <= index < ClauseEnd(w, start + 1)
    ensures SameClause(w, index, m)
  {
    LocalMentionEndsInClause(w, start, m);
  }

  /** The mentions of a clause are those without a break between them and its tokens. */
  lemma ClauseMentionIff(w: View, s: nat, index: nat, m: Mention)
    requires ViewFits(w) && InClause(w, s, index) && m in w.mentions
    ensures m.start < m.end <= |w.tokens| && (SameClause(w, index, m) <==> s <= m.start < ClauseEnd(w, s + 1))
  {
    var end := ClauseEnd(w, s + 1);
    if s <= m.start < end {
      LocalMentionIsInClause(w, s, m, index);
    } else if m.start < s {
      assert !Continues(w, s);
    } else {
      assert !Continues(w, end);
    }
  }

  lemma {:induction false} LocalContains(ms: seq<Mention>, start: nat, end: nat, n: nat, k: nat)
    requires k < n <= |ms| && start <= ms[k].start < end
    ensures ms[k] in Local(ms, start, end, n)
  {
    if k < n - 1 { LocalContains(ms, start, end, n - 1, k); }
  }

  /** The mentions that the engine looks at in a clause are those that start in it. */
  lemma LocalIff(w: View, start: nat, end: nat, m: Mention)
    ensures m in Local(w.mentions, start, end, |w.mentions|) <==> m in w.mentions && start <= m.start < end
  {
    if m in Local(w.mentions, start, end, |w.mentions|) { var l := LocalMembers(w.mentions, start, end, |w.mentions|, m); }
    if m in w.mentions && start <= m.start < end {
      var k :| 0 <= k < |w.mentions| && w.mentions[k] == m;
      LocalContains(w.mentions, start, end, |w.mentions|, k);
    }
  }

  lemma AppendKeepsPlaces(tokens: seq<Token>, g: seq<Mention>, m: Mention)
    requires WellPlaced(tokens, 0, g) && m.start < m.end <= |tokens| && forall k :: 0 <= k < |g| ==> g[k].end <= m.start
    ensures WellPlaced(tokens, 0, g + [m])
  {
  }

  lemma {:induction false} LocalIsWellPlaced(tokens: seq<Token>, ms: seq<Mention>, start: nat, end: nat, n: nat)
    requires n <= |ms| && WellPlaced(tokens, 0, ms)
    ensures WellPlaced(tokens, 0, Local(ms, start, end, n))
  {
    if n == 0 {
    } else {
      LocalIsWellPlaced(tokens, ms, start, end, n - 1);
      var before := Local(ms, start, end, n - 1);
      forall k | 0 <= k < |before| ensures before[k].end <= ms[n - 1].start {
        var l := LocalMembers(ms, start, end, n - 1, before[k]);
      }
      AppendKeepsPlaces(tokens, before, ms[n - 1]);
    }
  }

  // ---- owners that count ----------------------------------------------------------------------------

  predicate MentionIn(w: View, index: nat, m: Mention)
    requires index < |w.tokens|
  {
    m in w.mentions && m.start < m.end <= |w.tokens| && SameClause(w, index, m)
  }

  /** Some mention of the clause ends before the issue. */
  predicate AnyBehind(w: View, index: nat)
    requires index < |w.tokens|
  {
    exists x <- w.mentions :: x.end <= index && MentionIn(w, index, x)
  }

  /**
   The next mention after the issue, in its clause and within eight tokens, if the clause mentions
   nothing before the issue or a preposition leads to it.
   */
  predicate CountsAhead(w: View, index: nat, m: Mention)
    requires index < |w.tokens|
  {
    && MentionIn(w, index, m) && m.start > index && m.start - index <= 8
    && (forall x <- w.mentions :: x.start > index ==> m.start <= x.start)
    && (!AnyBehind(w, index)
        || w.tokens[m.start - 1].value == "for" || w.tokens[m.start - 1].value == "of" || w.tokens[m.start - 1].value == "in")
  }

  /** The last mention before the issue, in its clause and within sixteen tokens, if none ahead counts. */
  predicate CountsBehind(w: View, index: nat, m: Mention)
    requires index < |w.tokens|
  {
    && MentionIn(w, index, m) && m.end <= index && index - m.end <= 16
    && (forall x <- w.mentions :: x.end <= index ==> x.end <= m.end)
    && (forall x <- w.mentions :: !CountsAhead(w, index, x))
  }

  lemma FieldOrder(w: View, x: Mention, y: Mention)
    requires ViewFits(w) && x in w.mentions && y in w.mentions
    ensures x.start < x.end && (x.end < y.end ==> x.end <= y.start) && (x.start < y.start ==> x.end <= y.start)
  {
    var i :| 0 <= i < |w.mentions| && w.mentions[i] == x;
    var j :| 0 <= j < |w.mentions| && w.mentions[j] == y;
    assert i < j ==> w.mentions[i].end <= w.mentions[j].start;
    assert j < i ==> w.mentions[j].end <= w.mentions[i].start;
  }

  lemma FirstAheadIff(w: View, s: nat, index: nat, m: Mention)
    requires ViewFits(w) && InClause(w, s, index)
    ensures FirstAhead(Local(w.mentions, s, ClauseEnd(w, s + 1), |w.mentions|), index, m) <==>
            MentionIn(w, index, m) && m.start > index && forall x <- w.mentions :: x.start > index ==> m.start <= x.start
  {
    var end := ClauseEnd(w, s + 1);
    forall x | x in w.mentions
      ensures x in Local(w.mentions, s, end, |w.mentions|) <==> s <= x.start < end
      ensures MentionIn(w, index, x) <==> s <= x.start < end
    {
      LocalIff(w, s, end, x);
      ClauseMentionIff(w, s, index, x);
    }
    LocalIff(w, s, end, m);
    forall x | x in Local(w.mentions, s, end, |w.mentions|) ensures x in w.mentions { LocalIff(w, s, end, x); }
  }

  lemma LastBehindIff(w: View, s: nat, index: nat, m: Mention)
    requires ViewFits(w) && InClause(w, s, index)
    ensures LastBehind(Local(w.mentions, s, ClauseEnd(w, s + 1), |w.mentions|), index, m) <==>
            MentionIn(w, index, m) && m.end <= index && forall x <- w.mentions :: x.end <= index ==> x.end <= m.end
  {
    var end := ClauseEnd(w, s + 1);
    var local := Local(w.mentions, s, end, |w.mentions|);
    LocalIff(w, s, end, m);
    forall x | x in local ensures x in w.mentions { LocalIff(w, s, end, x); }
    if m in w.mentions {
      ClauseMentionIff(w, s, index, m);
      forall x | x in w.mentions && s <= m.start && m.end < x.end <= index ensures x in local {
        FieldOrder(w, m, x);
        LocalIff(w, s, end, x);
      }
    }
  }

  lemma AnyBehindIff(w: View, s: nat, index: nat)
    requires ViewFits(w) && InClause(w, s, index)
    ensures AnyBehind(w, index) <==> exists x <- Local(w.mentions, s, ClauseEnd(w, s + 1), |w.mentions|) :: x.end <= index
  {
    var end := ClauseEnd(w, s + 1);
    var local := Local(w.mentions, s, end, |w.mentions|);
    forall x | x in w.mentions ensures x in local <==> MentionIn(w, index, x) {
      LocalIff(w, s, end, x);
      ClauseMentionIff(w, s, index, x);
    }
    forall x | x in local ensures x in w.mentions { LocalIff(w, s, end, x); }
  }

  lemma LocalInBounds(w: View, start: nat, end: nat)
    requires ViewFits(w)
    ensures WellPlaced(w.tokens, 0, Local(w.mentions, start, end, |w.mentions|))
    ensures InBounds(w.tokens, Local(w.mentions, start, end, |w.mentions|))
  {
    LocalIsWellPlaced(w.tokens, w.mentions, start, end, |w.mentions|);
  }

  lemma CountsAheadIff(w: View, s: nat, index: nat, m: Mention)
    requires ViewFits(w) && InClause(w, s, index) && InBounds(w.tokens, Local(w.mentions, s, ClauseEnd(w, s + 1), |w.mentions|))
    ensures OwnsAhead(Local(w.mentions, s, ClauseEnd(w, s + 1), |w.mentions|), w.tokens, index, m) <==> CountsAhead(w, index, m)
  {
    FirstAheadIff(w, s, index, m);
    AnyBehindIff(w, s, index);
  }

  lemma CountsBehindIff(w: View, s: nat, index: nat, m: Mention)
    requires ViewFits(w) && InClause(w, s, index) && InBounds(w.tokens, Local(w.mentions, s, ClauseEnd(w, s + 1), |w.mentions|))
    ensures OwnsBehind(Local(w.mentions, s, ClauseEnd(w, s + 1), |w.mentions|), w.tokens, index, m) <==> CountsBehind(w, index, m)
  {
    var local := Local(w.mentions, s, ClauseEnd(w, s + 1), |w.mentions|);
    LastBehindIff(w, s, index, m);
    forall x ensures OwnsAhead(local, w.tokens, index, x) <==> CountsAhead(w, index, x) { CountsAheadIff(w, s, index, x); }
    forall x | CountsAhead(w, index, x) ensures x in w.mentions && x in local { assert OwnsAhead(local, w.tokens, index, x); }
    forall x | x in local ensures x in w.mentions { LocalIff(w, s, ClauseEnd(w, s + 1), x); }
  }

  /** In a clause with mentions of its own the owner of an issue is exactly the mention that counts. */
  lemma OwnerInClauseIs(w: View, s: nat, index: nat, m: Mention)
    requires ViewFits(w) && InClause(w, s, index)
    ensures InBounds(w.tokens, Local(w.mentions, s, ClauseEnd(w, s + 1), |w.mentions|))
    ensures Nearest(index, Local(w.mentions, s, ClauseEnd(w, s + 1), |w.mentions|), w.tokens, false) == Some(m) <==>
            CountsAhead(w, index, m) || CountsBehind(w, index, m)
  {
    var local := Local(w.mentions, s, ClauseEnd(w, s + 1), |w.mentions|);
    LocalInBounds(w, s, ClauseEnd(w, s + 1));
    NearestIs(local, w.tokens, index, m);
    CountsAheadIff(w, s, index, m);
    CountsBehindIff(w, s, index, m);
  }
}
