/** What the matcher recognises, part by part, and that every issue next to its owner is proved. */
module IssueOutcomes {
  import opened Common
  import opened IssueTokens
  import opened IssueOwners
  import opened IssueEvidence
  import opened IssueNearest
  import opened IssueClauses
  import opened IssueLaws

  // ---- issues and their terms --------------------------------------------------------------------------

  /** A positive two-word issue within a clause, else a positive or technical word, the plural of reset included, else nothing. */
  lemma IssueAtIs(tokens: seq<Token>, index: nat)
    requires index < |tokens|
    ensures var (issue, end) := ConcreteIssueAt(tokens, index);
      var word := tokens[index].value;
      var phrase := if index + 1 < |tokens| then word + " " + tokens[index + 1].value else "";
      if index + 1 < |tokens| && !tokens[index + 1].breakBefore && phrase in CONCRETE_ISSUES
      then issue == phrase && end == index + 2
      else end == index + 1 && issue == (if word == "resets" then "reset"
                                         else if word in CONCRETE_ISSUES || word in TECHNICAL_TERMS then word else "")
  {
    assert "reset" in CONCRETE_ISSUES;
  }

  /** Two neighbours of one clause, outside all mentions, that form a focused pair. */
  predicate Pair(v: Vocabulary, w: View, left: nat, outer: nat) {
    && left + 1 < |w.tokens| && !w.tokens[left + 1].breakBefore && !IsOwner(outer, w.mentions)
    && v.focusedPair(w.tokens[left].value, w.tokens[left + 1].value)
  }

  /** The term of a proof: a two-word issue, else the pair with the word before, else with the word after, else the word. */
  lemma TermIs(v: Vocabulary, w: View, start: nat, end: nat, index: nat)
    requires start <= index < end <= |w.tokens|
    ensures var (issue, issueEnd), word := ConcreteIssueAt(w.tokens, index), w.tokens[index].value;
      Term(v, w, start, end, index) ==
        if issueEnd == index + 2 then issue
        else if index > start && Pair(v, w, index - 1, index - 1) then w.tokens[index - 1].value + " " + word
        else if index + 1 < end && Pair(v, w, index, index + 1) then word + " " + w.tokens[index + 1].value
        else word
  {
  }

  // ---- names ------------------------------------------------------------------------------------------------

  function Normalised(a: Alphabet, value: string): string { Trim(a, a.lower(value)) }

  /** The names are the normalised values that are not blank, each once, in the order of their first occurrence. */
  lemma {:induction false} UniqueIs(a: Alphabet, values: seq<string>)
    ensures forall x :: x in Unique(a, values) <==> x != "" && exists k :: 0 <= k < |values| && Normalised(a, values[k]) == x
    ensures forall i, j :: 0 <= i < j < |Unique(a, values)| ==> Unique(a, values)[i] != Unique(a, values)[j]
  {
    if values == [] {
    } else {
      var n := |values| - 1;
      UniqueIs(a, values[..n]);
      assert forall k :: 0 <= k < n ==> values[..n][k] == values[k];
      forall x ensures x in Unique(a, values) <==> x != "" && exists k :: 0 <= k < |values| && Normalised(a, values[k]) == x {
        if x != "" && Normalised(a, values[n]) == x { assert x in Unique(a, values); }
        if x in Unique(a, values[..n]) { assert x in Unique(a, values); }
      }
    }
  }

  lemma UniqueGrows(a: Alphabet, values: seq<string>, more: string)
    ensures Unique(a, values) <= Unique(a, values + [more]) && |Unique(a, values + [more])| <= |Unique(a, values)| + 1
  {
    assert (values + [more])[..|values|] == values;
  }

  /** At most the first 32 names are definitions, and all of them if there are no more. */
  lemma DefinitionsAre(a: Alphabet, identities: seq<string>, subjects: seq<string>)
    ensures var d, all := Definitions(a, identities, subjects), Unique(a, identities + subjects);
      d <= all && |d| == if |all| < 32 then |all| else 32
  {
  }

  lemma {:induction false} AddedNames(known: seq<string>, more: seq<string>)
    ensures forall x :: x in AddNames(known, more) <==> x in known || x in more
    ensures (forall i, j :: 0 <= i < j < |known| ==> known[i] != known[j]) ==>
              forall i, j :: 0 <= i < j < |AddNames(known, more)| ==> AddNames(known, more)[i] != AddNames(known, more)[j]
    decreases |more|
  {
    if more == [] {
    } else {
      var next := if more[0] in known then known else known + [more[0]];
      AddedNames(next, more[1..]);
      assert more == [more[0]] + more[1..];
    }
  }

  predicate Differ(s: seq<string>) { forall i, j :: 0 <= i < j < |s| ==> s[i] != s[j] }

  lemma {:induction false} NamesOfMentions(known: seq<string>, ms: seq<Mention>, n: nat, x: string)
    requires n <= |ms|
    ensures x in MentionNames(known, ms, n) <==> x in known || exists m <- ms[..n] :: x in m.names
    ensures Differ(known) ==> Differ(MentionNames(known, ms, n))
  {
    if n == 0 {
    } else {
      NamesOfMentions(known, ms, n - 1, x);
      AddedNames(MentionNames(known, ms, n - 1), ms[n - 1].names);
      assert ms[..n] == ms[..n - 1] + [ms[n - 1]];
    }
  }

  predicate MentionedIn(v: Vocabulary, names: Names, field: Field, x: string) {
    exists m <- ViewOf(v, names, field).mentions :: x in m.names
  }

  lemma PrimaryStep(v: Vocabulary, names: Names, fields: seq<Field>, n: nat, x: string)
    requires 0 < n <= |fields|
    ensures x in Primary(v, names, fields, n) <==>
              x in Primary(v, names, fields, n - 1) || (fields[n - 1].section != "summary" && MentionedIn(v, names, fields[n - 1], x))
    ensures Differ(Primary(v, names, fields, n - 1)) ==> Differ(Primary(v, names, fields, n))
  {
    var ms := ViewOf(v, names, fields[n - 1]).mentions;
    NamesOfMentions(Primary(v, names, fields, n - 1), ms, |ms|, x);
    assert ms[..|ms|] == ms;
  }

  /** The primary owners are exactly the names, boundaries included, that fields other than summaries mention. */
  lemma {:induction false} PrimaryAreMentioned(v: Vocabulary, names: Names, fields: seq<Field>, n: nat, x: string) returns (k: nat)
    requires n <= |fields| && x in Primary(v, names, fields, n)
    ensures k < n && fields[k].section != "summary" && MentionedIn(v, names, fields[k], x)
  {
    PrimaryStep(v, names, fields, n, x);
    k := n - 1;
    if x in Primary(v, names, fields, n - 1) { k := PrimaryAreMentioned(v, names, fields, n - 1, x); }
  }

  lemma {:induction false} MentionedArePrimary(v: Vocabulary, names: Names, fields: seq<Field>, n: nat, x: string, k: nat)
    requires k < n <= |fields| && fields[k].section != "summary" && MentionedIn(v, names, fields[k], x)
    ensures x in Primary(v, names, fields, n)
  {
    PrimaryStep(v, names, fields, n, x);
    if k < n - 1 { MentionedArePrimary(v, names, fields, n - 1, x, k); }
  }

  lemma {:induction false} PrimaryDiffer(v: Vocabulary, names: Names, fields: seq<Field>, n: nat)
    requires n <= |fields|
    ensures Differ(Primary(v, names, fields, n))
  {
    if n > 0 {
      PrimaryDiffer(v, names, fields, n - 1);
      PrimaryStep(v, names, fields, n, "");
    }
  }

  // ---- mentions ---------------------------------------------------------------------------------------------

  /** A definition is matched word by word within a clause, though an identity may span a break; excluded words match nothing. */
  lemma DefinitionMatchesIff(v: Vocabulary, names: Names, tokens: seq<Token>, index: nat, name: string)
    ensures var parts := v.words(name);
      MatchesAt(v, names, tokens, index, name) <==>
        && |parts| > 0 && index + |parts| <= |tokens|
        && (forall o :: 0 <= o < |parts| ==> tokens[index + o].value == parts[o])
        && (forall part <- parts :: part !in names.excluded)
        && (name in names.identities || forall j :: index < j < index + |parts| ==> !tokens[j].breakBefore)
  {
    var parts := v.words(name);
    if MatchesAt(v, names, tokens, index, name) {
      forall j | index < j < index + |parts| ensures tokens[j].breakBefore ==> name in names.identities {
        var o := j - index;
        assert tokens[index + o].value == parts[o];
      }
    }
  }

  /** A mention carries the longest definition and the identities that end where it ends. */
  lemma {:induction false} AliasesAre(v: Vocabulary, names: Names, tokens: seq<Token>, index: nat, end: nat, best: string, n: nat, x: string)
    requires index < end <= |tokens| && n <= |names.definitions|
    ensures x in WithAliases(v, names, tokens, index, end, best, n) <==>
      || x == best
      || exists k :: 0 <= k < n && names.definitions[k] == x && x in names.identities && |v.words(x)| <= end - index
           && forall o :: 0 <= o < |v.words(x)| ==> tokens[end - |v.words(x)| + o].value == v.words(x)[o]
    decreases n
  {
    if n == 0 {
    } else {
      AliasesAre(v, names, tokens, index, end, best, n - 1, x);
    }
  }

  /**
   Where no definition matches, a well-known or capitalised feature name is a boundary, unless it is
   an issue or part of one, excluded, a unit of time or a context label.
   */
  lemma BoundaryIff(v: Vocabulary, names: Names, tokens: seq<Token>, index: nat)
    requires index < |tokens| && forall name <- names.definitions :: !MatchesAt(v, names, tokens, index, name)
    ensures var token := tokens[index];
      var bounds := (token.value in BOUNDARY_OWNERS || (v.hasUpper(token.original) && v.featureTerm(token.value)))
        && ConcreteIssueAt(tokens, index).0 == "" && !(index > 0 && ConcreteIssueAt(tokens, index - 1).1 == index + 1)
        && token.value !in names.excluded && !v.durationUnit(token.value) && token.value !in CONTEXT_LABELS;
      MentionAt(v, names, tokens, index) == if bounds then Some(Mention(["boundary:" + token.value], index, index + 1)) else None
  {
  }

  /** The first of the longest matching definitions. */
  predicate FirstLongest(v: Vocabulary, names: Names, tokens: seq<Token>, index: nat, k: nat) {
    && k < |names.definitions| && MatchesAt(v, names, tokens, index, names.definitions[k])
    && (forall j :: 0 <= j < |names.definitions| && MatchesAt(v, names, tokens, index, names.definitions[j]) ==>
          |v.words(names.definitions[j])| <= |v.words(names.definitions[k])|)
    && (forall j :: 0 <= j < k && MatchesAt(v, names, tokens, index, names.definitions[j]) ==>
          |v.words(names.definitions[j])| < |v.words(names.definitions[k])|)
  }

  lemma {:induction false} LongestOrigin(v: Vocabulary, names: Names, tokens: seq<Token>, index: nat, n: nat) returns (k: nat)
    requires n <= |names.definitions| && Longest(v, names, tokens, index, n).Some?
    ensures k < n && Longest(v, names, tokens, index, n) == Some(names.definitions[k]) && MatchesAt(v, names, tokens, index, names.definitions[k])
    ensures forall j :: 0 <= j < k && MatchesAt(v, names, tokens, index, names.definitions[j]) ==>
              |v.words(names.definitions[j])| < |v.words(names.definitions[k])|
  {
    var before, name := Longest(v, names, tokens, index, n - 1), names.definitions[n - 1];
    if MatchesAt(v, names, tokens, index, name) && |v.words(name)| > Width(v, before) {
      k := n - 1;
    } else {
      k := LongestOrigin(v, names, tokens, index, n - 1);
    }
  }

  /** Where definitions match, the mention is named by the first of the longest, and spans it. */
  lemma LongestDefinitionWins(v: Vocabulary, names: Names, tokens: seq<Token>, index: nat, k: nat) returns (first: nat)
    requires index < |tokens| && k < |names.definitions| && MatchesAt(v, names, tokens, index, names.definitions[k])
    ensures FirstLongest(v, names, tokens, index, first)
    ensures var m := MentionAt(v, names, tokens, index);
      m.Some? && m.value.start == index && m.value.names != [] && m.value.names[0] == names.definitions[first]
      && m.value.end == index + |v.words(names.definitions[first])|
  {
    first := LongestOrigin(v, names, tokens, index, |names.definitions|);
  }

  /** No token of a mention names an issue. */
  lemma MentionedTokensAreNoIssues(w: View, names: Names, m: Mention, i: nat)
    requires m in w.mentions && m.start <= i < m.end && i < |w.tokens|
    ensures !NamesIssue(w, names, i)
  {
  }

  /** Two mentions are one exactly if the single word "and" joins them without a break. */
  lemma JoinedIff(tokens: seq<Token>, g: seq<Mention>, m: Mention)
    requires g != [] && g[|g| - 1].end < |tokens| && m.start < |tokens|
    ensures var last := g[|g| - 1];
      var joined := m.start == last.end + 1 && tokens[last.end].value == "and" && !tokens[last.end].breakBefore && !tokens[m.start].breakBefore;
      Join(tokens, g, m) == if joined then g[|g| - 1 := Mention(last.names + m.names, last.start, m.end)] else g + [m]
  {
  }

  // ---- clauses -------------------------------------------------------------------------------------------------

  /**
   Who owns a clause: its own mentions; without any, the sole owner of the previous clause if it goes
   on with a pronoun, or behind a colon after a clause without an issue; else in a summary the sole
   primary owner; else nobody.
   */
  lemma WhoOwnsAClause(w: View, primary: seq<string>, carry: Carry, start: nat, end: nat)
    requires start < end <= |w.tokens|
    ensures var o, own := ClauseOwners(w, primary, carry, start, end), exists m <- w.mentions :: start <= m.start < end;
      var pronoun := w.tokens[start].value == "it" || w.tokens[start].value == "its";
      var heading := start > 0 && exists k :: w.tokens[start - 1].end <= k < w.tokens[start].start && k < |w.runes| && w.runes[k] == ':';
      var goesOn := |carry.mentions| == 1 && (pronoun || (heading && !carry.hadIssue));
      if own then !o.inherited && forall m :: m in o.mentions <==> m in w.mentions && start <= m.start < end
      else if goesOn then o == Owners(carry.mentions, true)
      else if w.section == "summary" && |primary| == 1 then o == Owners([Mention(primary, start, start)], true)
      else o == Owners([], false)
  {
    forall m ensures m in Local(w.mentions, start, end, |w.mentions|) <==> m in w.mentions && start <= m.start < end { LocalIff(w, start, end, m); }
    var local := Local(w.mentions, start, end, |w.mentions|);
    assert local != [] ==> local[0] in local;
    assert |primary| == 1 ==> [primary[0]] == primary;
  }

  /** A token that names an issue, is not excluded and belongs to no mention. */
  predicate IssueToken(names: Names, w: View, i: nat) {
    i < |w.tokens| && ConcreteIssueAt(w.tokens, i).0 != "" && w.tokens[i].value !in names.excluded && !IsOwner(i, w.mentions)
  }

  /** A clause had an issue exactly if one of its tokens names one. */
  lemma {:induction false} HadIssueIff(w: View, names: Names, start: nat, end: nat)
    requires end <= |w.tokens|
    ensures HadIssue(w, names, start, end) <==>
      exists i: nat :: start <= i < end && IssueToken(names, w, i)
    decreases end
  {
    if start < end {
      HadIssueIff(w, names, start, end - 1);
      assert NamesIssue(w, names, end - 1) <==> IssueToken(names, w, end - 1);
    }
  }

  // ---- completeness -----------------------------------------------------------------------------------------------

  /** The clause that holds a token, as the engine reaches it. */
  lemma {:induction false} ClauseReached(names: Names, primary: seq<string>, w: View, start: nat, carry: Carry, index: nat) returns (from: Carry)
    requires ViewFits(w) && ClauseStart(w, start) && start <= index < |w.tokens|
    ensures var c := ClauseOf(names, primary, w, start, carry, index);
      InClause(w, c.start, index) && c.end == ClauseEnd(w, c.start + 1) && c.owners == ClauseOwners(w, primary, from, c.start, c.end)
    decreases |w.tokens| - start
  {
    var end := ClauseEnd(w, start + 1);
    var o := ClauseOwners(w, primary, carry, start, end);
    if index < end {
      from := carry;
    } else {
      from := ClauseReached(names, primary, w, end, Carry(o.mentions, HadIssue(w, names, start, end)), index);
    }
  }

  /** An issue of a token that may be attributed at all. */
  predicate Issue(names: Names, w: View, index: nat) {
    && IssueToken(names, w, index) && (w.section == "summary" ==> ConcreteIssueAt(w.tokens, index).0 in TECHNICAL_TERMS)
  }

  /** A clause that holds the counted owner is owned by its own mentions. */
  lemma CountedOwnerIsFound(primary: seq<string>, w: View, from: Carry, s: nat, o: Owners, index: nat, m: Mention)
    requires ViewFits(w) && InClause(w, s, index) && (CountsAhead(w, index, m) || CountsBehind(w, index, m))
    requires o == ClauseOwners(w, primary, from, s, ClauseEnd(w, s + 1))
    ensures OwnersFit(w, o) && !o.inherited && Nearest(index, o.mentions, w.tokens, false) == Some(m)
  {
    ClauseMentionIff(w, s, index, m);
    LocalIff(w, s, ClauseEnd(w, s + 1), m);
    OwnerInClauseIs(w, s, index, m);
  }

  lemma CountedOwnerIsAttributed(names: Names, primary: seq<string>, w: View, index: nat, m: Mention, name: string)
    requires ViewFits(w) && Issue(names, w, index) && (CountsAhead(w, index, m) || CountsBehind(w, index, m))
    requires name in m.names && name in names.definitions && (w.section == "summary" ==> name in primary)
    ensures Attributed(names, primary, w, 0, Carry([], false), index, name)
  {
    var s, from, o := OwnersOfToken(names, primary, w, index);
    CountedOwnerIsFound(primary, w, from, s, o, index, m);
    OwnerAtIs(names, w, o, index, m);
  }

  /** The owners of the clause that holds the token. */
  lemma OwnersOfToken(names: Names, primary: seq<string>, w: View, index: nat) returns (s: nat, from: Carry, o: Owners)
    requires ViewFits(w) && index < |w.tokens|
    ensures o == ClauseOf(names, primary, w, 0, Carry([], false), index).owners
    ensures InClause(w, s, index) && o == ClauseOwners(w, primary, from, s, ClauseEnd(w, s + 1))
  {
    from := ClauseReached(names, primary, w, 0, Carry([], false), index);
    var c := ClauseOf(names, primary, w, 0, Carry([], false), index);
    s, o := c.start, c.owners;
  }

  lemma OwnerAtIs(names: Names, w: View, o: Owners, index: nat, m: Mention)
    requires OwnersFit(w, o) && !o.inherited && Issue(names, w, index) && Nearest(index, o.mentions, w.tokens, false) == Some(m)
    ensures OwnerAt(names, w, o, index) == Some(m)
  {
  }

  /**
   Every issue that its clause attributes to an owner of its own is proved: in a record with at most
   64 proofs, for each admissible name of the mention that counts.
   */
  lemma NearestOwnersAreProved(v: Vocabulary, names: Names, fields: seq<Field>, k: nat, index: nat, m: Mention, name: string)
    requires k < |fields| && Issue(names, ViewOf(v, names, fields[k]), index)
    requires var w := ViewOf(v, names, fields[k]); CountsAhead(w, index, m) || CountsBehind(w, index, m)
    requires name in m.names && name in names.definitions
    requires fields[k].section == "summary" ==> name in Primary(v, names, fields, |fields|)
    requires |AllProofs(v, names, Primary(v, names, fields, |fields|), fields, 0)| <= 64
    ensures ProvesAt(Evidence(v, names, fields), ViewOf(v, names, fields[k]), index, name)
  {
    ViewsFit(v, names, fields[k]);
    CountedOwnerIsAttributed(names, Primary(v, names, fields, |fields|), ViewOf(v, names, fields[k]), index, m, name);
    EvidenceIsComplete(v, names, fields, k, index, name);
  }
}
