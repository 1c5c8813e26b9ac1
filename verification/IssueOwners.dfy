/**
 Which names own which stretch of a text, and which owner is nearest to an issue. Names are the
 known definitions; an unknown proper name is a boundary that owns nothing.
 */
module IssueOwners {
  import opened Common
  import opened IssueTokens

  datatype Vocabulary = Vocabulary(
    alphabet: Alphabet,
    words: string -> seq<string>,
    featureTerm: string -> bool,
    durationUnit: string -> bool,
    hasUpper: string -> bool,
    focusedPair: (string, string) -> bool)

  const CONCRETE_ISSUES: set<string> :=
    {"reset", "licensing", "coding", "citation", "grounding", "error", "latency", "pricing",
     "distribution", "safety", "context window", "tool calling"}

  const TECHNICAL_TERMS: set<string> :=
    {"calibration", "embedding", "embeddings", "generative", "gyroscope", "matrix", "motion",
     "quantum", "stabilization", "stabilisation", "vector"}

  const BOUNDARY_OWNERS: set<string> :=
    {"codex", "chatgpt", "openai", "anthropic", "google", "microsoft", "meta", "nvidia"}

  const CONTEXT_LABELS: set<string> := {"arena", "ui", "cli", "enterprise"}

  function ConcreteIssue(value: string): string {
    var v := if value == "resets" then "reset" else value;
    if v in CONCRETE_ISSUES || v in TECHNICAL_TERMS then v else ""
  }

  /** The issue named at a token, and the index after its last token. */
  function ConcreteIssueAt(tokens: seq<Token>, index: nat): (r: (string, nat))
    requires index < |tokens|
    ensures index < r.1 <= |tokens| && r.1 <= index + 2
  {
    if index + 1 < |tokens| && !tokens[index + 1].breakBefore &&
       tokens[index].value + " " + tokens[index + 1].value in CONCRETE_ISSUES
    then (tokens[index].value + " " + tokens[index + 1].value, index + 2)
    else (ConcreteIssue(tokens[index].value), index + 1)
  }

  /** Token indices, end exclusive. */
  datatype Mention = Mention(names: seq<string>, start: nat, end: nat)

  datatype Names = Names(definitions: seq<string>, identities: set<string>, excluded: set<string>)

  // ---- matching a definition ----------------------------------------------------------------------

  predicate MatchesAt(v: Vocabulary, names: Names, tokens: seq<Token>, index: nat, name: string) {
    var parts := v.words(name);
    && parts != [] && index + |parts| <= |tokens|
    && forall o :: 0 <= o < |parts| ==>
         && tokens[index + o].value == parts[o] && parts[o] !in names.excluded
         && !(o > 0 && tokens[index + o].breakBefore && name !in names.identities)
  }

  function Width(v: Vocabulary, name: Option<string>): nat { if name.None? then 0 else |v.words(name.value)| }

  /** The longest definition that matches, the first of equally long ones, among the first n. */
  function Longest(v: Vocabulary, names: Names, tokens: seq<Token>, index: nat, n: nat): (best: Option<string>)
    requires n <= |names.definitions|
    ensures best.Some? ==> best.value in names.definitions && MatchesAt(v, names, tokens, index, best.value)
    ensures forall k :: 0 <= k < n && MatchesAt(v, names, tokens, index, names.definitions[k]) ==>
              best.Some? && |v.words(names.definitions[k])| <= Width(v, best)
  {
    if n == 0 then None else
      var best := Longest(v, names, tokens, index, n - 1);
      var name := names.definitions[n - 1];
      if MatchesAt(v, names, tokens, index, name) && |v.words(name)| > Width(v, best) then Some(name) else best
  }

  predicate EndsWith(v: Vocabulary, tokens: seq<Token>, end: nat, name: string)
    requires end <= |tokens| && |v.words(name)| <= end
  {
    forall o :: 0 <= o < |v.words(name)| ==> tokens[end - |v.words(name)| + o].value == v.words(name)[o]
  }

  /** The identities among the first n definitions that end where the match ends are aliases of it. */
  function WithAliases(v: Vocabulary, names: Names, tokens: seq<Token>, index: nat, end: nat, best: string, n: nat): (r: seq<string>)
    requires index < end <= |tokens| && n <= |names.definitions|
    ensures |r| >= 1 && r[0] == best
    ensures forall x <- r :: x == best || x in names.definitions
  {
    if n == 0 then [best] else
      var sofar := WithAliases(v, names, tokens, index, end, best, n - 1);
      var name := names.definitions[n - 1];
      if name in names.identities && |v.words(name)| <= end - index && name !in sofar && EndsWith(v, tokens, end, name)
      then sofar + [name] else sofar
  }

  // ---- scanning -----------------------------------------------------------------------------------

  predicate PhrasePart(tokens: seq<Token>, index: nat)
    requires index < |tokens|
  {
    index > 0 && ConcreteIssueAt(tokens, index - 1).1 > index
  }

  /** An unrecognised proper name. */
  predicate BoundaryAt(v: Vocabulary, names: Names, tokens: seq<Token>, index: nat)
    requires index < |tokens|
  {
    var token := tokens[index];
    && (token.value in BOUNDARY_OWNERS || (v.hasUpper(token.original) && v.featureTerm(token.value)))
    && ConcreteIssueAt(tokens, index).0 == "" && !PhrasePart(tokens, index)
    && token.value !in names.excluded && !v.durationUnit(token.value) && token.value !in CONTEXT_LABELS
  }

  function BoundaryName(value: string): string { "boundary:" + value }

  /** The mention that starts at a token, if any. */
  function MentionAt(v: Vocabulary, names: Names, tokens: seq<Token>, index: nat): (m: Option<Mention>)
    requires index < |tokens|
    ensures m.Some? ==> m.value.start == index < m.value.end <= |tokens|
  {
    var best := Longest(v, names, tokens, index, |names.definitions|);
    if best.Some? then
      var end := index + |v.words(best.value)|;
      Some(Mention(WithAliases(v, names, tokens, index, end, best.value, |names.definitions|), index, end))
    else if BoundaryAt(v, names, tokens, index) then Some(Mention([BoundaryName(tokens[index].value)], index, index + 1))
    else None
  }

  function ScanFrom(v: Vocabulary, names: Names, tokens: seq<Token>, index: nat): seq<Mention>
    requires index <= |tokens|
    decreases |tokens| - index
  {
    if index == |tokens| then [] else
      var m := MentionAt(v, names, tokens, index);
      if m.Some? then [m.value] + ScanFrom(v, names, tokens, m.value.end)
      else ScanFrom(v, names, tokens, index + 1)
  }

  /** Mentions are non-empty, in bounds from `from` on, in order and pairwise disjoint. */
  predicate WellPlaced(tokens: seq<Token>, from: nat, ms: seq<Mention>) {
    && (forall k :: 0 <= k < |ms| ==> from <= ms[k].start < ms[k].end <= |tokens|)
    && (forall k, l :: 0 <= k < l < |ms| ==> ms[k].end <= ms[l].start)
  }

  predicate KnownNames(names: Names, tokens: seq<Token>, m: Mention) {
    forall x <- m.names :: x in names.definitions || exists t <- tokens :: x == BoundaryName(t.value)
  }

  lemma {:induction false} ScanIsWellPlaced(v: Vocabulary, names: Names, tokens: seq<Token>, index: nat)
    requires index <= |tokens|
    ensures WellPlaced(tokens, index, ScanFrom(v, names, tokens, index))
    ensures AllKnown(names, tokens, ScanFrom(v, names, tokens, index))
    decreases |tokens| - index
  {
    if index < |tokens| {
      var m := MentionAt(v, names, tokens, index);
      if m.Some? {
        ScanIsWellPlaced(v, names, tokens, m.value.end);
        assert tokens[index] in tokens;
      } else {
        ScanIsWellPlaced(v, names, tokens, index + 1);
      }
    }
  }

  predicate Covered(ms: seq<Mention>, i: nat) { exists k :: 0 <= k < |ms| && ms[k].start <= i < ms[k].end }

  /** Wherever a definition matches, the token belongs to some mention. */
  lemma {:induction false} ScanCoversDefinitions(v: Vocabulary, names: Names, tokens: seq<Token>, index: nat, i: nat, name: string)
    requires index <= i < |tokens| && name in names.definitions && MatchesAt(v, names, tokens, i, name)
    ensures Covered(ScanFrom(v, names, tokens, index), i)
    decreases |tokens| - index
  {
    var m := MentionAt(v, names, tokens, index);
    var ms := ScanFrom(v, names, tokens, index);
    if m.None? {
      if i > index { ScanCoversDefinitions(v, names, tokens, index + 1, i, name); }
    } else if i < m.value.end {
      assert ms[0] == m.value;
    } else {
      ScanCoversDefinitions(v, names, tokens, m.value.end, i, name);
      var rest := ScanFrom(v, names, tokens, m.value.end);
      var k :| 0 <= k < |rest| && rest[k].start <= i < rest[k].end;
      assert ms[k + 1] == rest[k];
    }
  }

  // ---- grouping -----------------------------------------------------------------------------------

  /** Two mentions joined by an explicit "and" within one clause. */
  predicate Joins(tokens: seq<Token>, previous: Mention, m: Mention) {
    && m.start == previous.end + 1 && m.start < |tokens|
    && tokens[previous.end].value == "and" && !tokens[previous.end].breakBefore && !tokens[m.start].breakBefore
  }

  /** One more mention: merged into the last one if the text joins them, appended otherwise. */
  function Join(tokens: seq<Token>, g: seq<Mention>, m: Mention): seq<Mention> {
    if g != [] && Joins(tokens, g[|g| - 1], m)
    then g[|g| - 1 := Mention(g[|g| - 1].names + m.names, g[|g| - 1].start, m.end)]
    else g + [m]
  }

  /** The first n mentions, with joined ones merged. */
  function Grouped(tokens: seq<Token>, ms: seq<Mention>, n: nat): seq<Mention>
    requires n <= |ms|
  {
    if n == 0 then [] else Join(tokens, Grouped(tokens, ms, n - 1), ms[n - 1])
  }

  function MentionsOf(v: Vocabulary, names: Names, tokens: seq<Token>): seq<Mention> {
    var raw := ScanFrom(v, names, tokens, 0);
    Grouped(tokens, raw, |raw|)
  }

  predicate AllKnown(names: Names, tokens: seq<Token>, ms: seq<Mention>) {
    forall k :: 0 <= k < |ms| ==> KnownNames(names, tokens, ms[k])
  }

  function LastEnd(g: seq<Mention>): nat { if g == [] then 0 else g[|g| - 1].end }

  lemma JoinKeepsPlaces(tokens: seq<Token>, g: seq<Mention>, m: Mention)
    requires WellPlaced(tokens, 0, g) && LastEnd(g) <= m.start < m.end <= |tokens|
    ensures WellPlaced(tokens, 0, Join(tokens, g, m)) && LastEnd(Join(tokens, g, m)) == m.end
  {
  }

  /** The span and the names of a mention are part of another one. */
  predicate PartOf(x: Mention, y: Mention) { y.start <= x.start && x.end <= y.end && forall name <- x.names :: name in y.names }

  /** Joining moves no start, no end backwards, and loses no name. */
  lemma JoinKeepsSpan(tokens: seq<Token>, g: seq<Mention>, m: Mention, j: nat, x: Mention)
    requires j < |g| && PartOf(x, g[j]) && LastEnd(g) <= m.end
    ensures j < |Join(tokens, g, m)| && PartOf(x, Join(tokens, g, m)[j])
  {
  }

  lemma JoinHoldsNew(tokens: seq<Token>, g: seq<Mention>, m: Mention)
    requires WellPlaced(tokens, 0, g) && LastEnd(g) <= m.start
    ensures var g' := Join(tokens, g, m); g' != [] && PartOf(m, g'[|g'| - 1])
  {
  }

  lemma JoinKeepsNames(names: Names, tokens: seq<Token>, g: seq<Mention>, m: Mention)
    requires AllKnown(names, tokens, g) && KnownNames(names, tokens, m)
    ensures AllKnown(names, tokens, Join(tokens, g, m))
  {
  }

  lemma {:induction false} GroupingKeepsPlaces(tokens: seq<Token>, ms: seq<Mention>, n: nat)
    requires n <= |ms| && WellPlaced(tokens, 0, ms)
    ensures WellPlaced(tokens, 0, Grouped(tokens, ms, n))
    ensures LastEnd(Grouped(tokens, ms, n)) == if n == 0 then 0 else ms[n - 1].end
  {
    if n == 0 {
    } else {
      GroupingKeepsPlaces(tokens, ms, n - 1);
      var g, m := Grouped(tokens, ms, n - 1), ms[n - 1];
      assert LastEnd(g) <= m.start < m.end <= |tokens|;
      JoinKeepsPlaces(tokens, g, m);
    }
  }

  lemma {:induction false} GroupingKeepsNames(names: Names, tokens: seq<Token>, ms: seq<Mention>, n: nat)
    requires n <= |ms| && AllKnown(names, tokens, ms)
    ensures AllKnown(names, tokens, Grouped(tokens, ms, n))
  {
    if n == 0 {
    } else {
      GroupingKeepsNames(names, tokens, ms, n - 1);
      JoinKeepsNames(names, tokens, Grouped(tokens, ms, n - 1), ms[n - 1]);
    }
  }

  lemma GroupedBefore(tokens: seq<Token>, ms: seq<Mention>, n: nat)
    requires n < |ms| && WellPlaced(tokens, 0, ms)
    ensures WellPlaced(tokens, 0, Grouped(tokens, ms, n)) && LastEnd(Grouped(tokens, ms, n)) <= ms[n].start < ms[n].end
  {
    GroupingKeepsPlaces(tokens, ms, n);
  }

  /** Merging mentions uncovers nothing and forgets no name. */
  lemma {:induction false} GroupingKeepsMentions(tokens: seq<Token>, ms: seq<Mention>, n: nat, k: nat) returns (j: nat)
    requires k < n <= |ms| && WellPlaced(tokens, 0, ms)
    ensures j < |Grouped(tokens, ms, n)| && PartOf(ms[k], Grouped(tokens, ms, n)[j])
  {
    GroupedBefore(tokens, ms, n - 1);
    if k == n - 1 {
      JoinHoldsNew(tokens, Grouped(tokens, ms, n - 1), ms[n - 1]);
      j := |Grouped(tokens, ms, n)| - 1;
    } else {
      j := GroupingKeepsMentions(tokens, ms, n - 1, k);
      JoinKeepsSpan(tokens, Grouped(tokens, ms, n - 1), ms[n - 1], j, ms[k]);
    }
  }

  /**
   Owner mentions are in bounds, non-empty, ordered and pairwise disjoint; they carry only
   definitions and boundary names; every place where a definition matches is inside one of them.
   */
  lemma MentionsAreSound(v: Vocabulary, names: Names, tokens: seq<Token>)
    ensures WellPlaced(tokens, 0, MentionsOf(v, names, tokens))
    ensures AllKnown(names, tokens, MentionsOf(v, names, tokens))
    ensures forall i: nat, name :: i < |tokens| && name in names.definitions && MatchesAt(v, names, tokens, i, name) ==>
              Covered(MentionsOf(v, names, tokens), i)
  {
    var raw := ScanFrom(v, names, tokens, 0);
    ScanIsWellPlaced(v, names, tokens, 0);
    GroupingKeepsPlaces(tokens, raw, |raw|);
    GroupingKeepsNames(names, tokens, raw, |raw|);
    forall i: nat, name | i < |tokens| && name in names.definitions && MatchesAt(v, names, tokens, i, name)
      ensures Covered(MentionsOf(v, names, tokens), i)
    {
      ScanCoversDefinitions(v, names, tokens, 0, i, name);
      var k :| 0 <= k < |raw| && raw[k].start <= i < raw[k].end;
      var j := GroupingKeepsMentions(tokens, raw, |raw|, k);
    }
  }

  // ---- the loops ----------------------------------------------------------------------------------

  method FindLongest(v: Vocabulary, names: Names, tokens: seq<Token>, index: nat) returns (best: Option<string>)
    ensures best == Longest(v, names, tokens, index, |names.definitions|)
  {
    best := None;
    var width := 0;
    for k := 0 to |names.definitions|
      invariant best == Longest(v, names, tokens, index, k) && width == Width(v, best)
    {
      var name := names.definitions[k];
      if MatchesAt(v, names, tokens, index, name) && |v.words(name)| > width {
        best, width := Some(name), |v.words(name)|;
      }
    }
  }

  method CollectAliases(v: Vocabulary, names: Names, tokens: seq<Token>, index: nat, end: nat, best: string) returns (r: seq<string>)
    requires index < end <= |tokens|
    ensures r == WithAliases(v, names, tokens, index, end, best, |names.definitions|)
  {
    r := [best];
    for k := 0 to |names.definitions|
      invariant r == WithAliases(v, names, tokens, index, end, best, k)
    {
      var name := names.definitions[k];
      if name in names.identities && |v.words(name)| <= end - index && name !in r && EndsWith(v, tokens, end, name) {
        r := r + [name];
      }
    }
  }

  /** The longest definition with its aliases, else a boundary name, else nothing. */
  method FindMention(v: Vocabulary, names: Names, tokens: seq<Token>, index: nat) returns (m: Option<Mention>)
    requires index < |tokens|
    ensures m == MentionAt(v, names, tokens, index)
  {
    var best := FindLongest(v, names, tokens, index);
    if best.Some? {
      var end := index + |v.words(best.value)|;
      var all := CollectAliases(v, names, tokens, index, end, best.value);
      return Some(Mention(all, index, end));
    }
    if BoundaryAt(v, names, tokens, index) { return Some(Mention([BoundaryName(tokens[index].value)], index, index + 1)); }
    return None;
  }

  method ScanMentions(v: Vocabulary, names: Names, tokens: seq<Token>) returns (result: seq<Mention>)
    ensures result == ScanFrom(v, names, tokens, 0)
  {
    result := [];
    var index := 0;
    while index < |tokens|
      invariant 0 <= index <= |tokens|
      invariant result + ScanFrom(v, names, tokens, index) == ScanFrom(v, names, tokens, 0)
    {
      var m := FindMention(v, names, tokens, index);
      if m.Some? {
        assert result + ([m.value] + ScanFrom(v, names, tokens, m.value.end)) == result + [m.value] + ScanFrom(v, names, tokens, m.value.end);
        result := result + [m.value];
        index := m.value.end;
      } else {
        index := index + 1;
      }
    }
  }

  method IssueOwnerMentions(v: Vocabulary, names: Names, tokens: seq<Token>) returns (grouped: seq<Mention>)
    ensures grouped == MentionsOf(v, names, tokens)
    ensures WellPlaced(tokens, 0, grouped)
  {
    MentionsAreSound(v, names, tokens);
    var raw := ScanMentions(v, names, tokens);
    grouped := [];
    for k := 0 to |raw|
      invariant grouped == Grouped(tokens, raw, k)
    {
      var m := raw[k];
      assert Grouped(tokens, raw, k + 1) == Join(tokens, grouped, m);
      if |grouped| > 0 && Joins(tokens, grouped[|grouped| - 1], m) {
        var previous := grouped[|grouped| - 1];
        grouped := grouped[|grouped| - 1 := Mention(previous.names + m.names, previous.start, m.end)];
      } else {
        grouped := grouped + [m];
      }
    }
  }

  // ---- the nearest owner ----------------------------------------------------------------------------

  const FORWARD_REACH: nat := 8
  const BACKWARD_REACH: nat := 16

  predicate Preposition(word: string) { word == "for" || word == "of" || word == "in" }

  predicate InBounds(tokens: seq<Token>, ms: seq<Mention>) {
    forall k :: 0 <= k < |ms| ==> ms[k].start < ms[k].end <= |tokens|
  }

  /** The last of the first n mentions that ends at or before the issue. */
  function LastBefore(ms: seq<Mention>, index: nat, n: nat): (p: Option<Mention>)
    requires n <= |ms|
    ensures p.Some? ==> p.value in ms && p.value.end <= index
  {
    if n == 0 then None else if ms[n - 1].end <= index then Some(ms[n - 1]) else LastBefore(ms, index, n - 1)
  }

  /** The index of the first mention that starts after the issue, or the length. */
  function FirstAfter(ms: seq<Mention>, index: nat, n: nat): (k: nat)
    requires n <= |ms|
    ensures n <= k <= |ms| && (k < |ms| ==> ms[k].start > index) && forall j :: n <= j < k ==> ms[j].start <= index
    decreases |ms| - n
  {
    if n == |ms| then n else if ms[n].start > index then n else FirstAfter(ms, index, n + 1)
  }

  /** The owner of an issue: a near owner behind it by preposition, otherwise a near one before it. */
  function Nearest(index: nat, ms: seq<Mention>, tokens: seq<Token>, inherited: bool): Option<Mention>
    requires InBounds(tokens, ms) || (inherited && |ms| == 1)
  {
    if inherited && |ms| == 1 then Some(ms[0]) else
      var k := FirstAfter(ms, index, 0);
      var previous := LastBefore(ms, index, k);
      if k < |ms| && ms[k].start - index <= FORWARD_REACH && (previous.None? || Preposition(tokens[ms[k].start - 1].value))
      then Some(ms[k])
      else if previous.Some? && index - previous.value.end <= BACKWARD_REACH then previous
      else None
  }

  predicate WithinReach(index: nat, m: Mention) {
    || (index < m.start && m.start - index <= FORWARD_REACH)
    || (m.end <= index && index - m.end <= BACKWARD_REACH)
  }

  /** An explicit owner is one of the mentions and lies within reach of the issue. */
  lemma NearestIsWithinReach(index: nat, ms: seq<Mention>, tokens: seq<Token>, inherited: bool)
    requires InBounds(tokens, ms) && !(inherited && |ms| == 1)
    ensures var m := Nearest(index, ms, tokens, inherited);
            m.Some? ==> m.value in ms && WithinReach(index, m.value)
  {
  }

  method NearestIssueOwner(index: nat, ms: seq<Mention>, tokens: seq<Token>, inherited: bool) returns (m: Option<Mention>)
    requires InBounds(tokens, ms) || (inherited && |ms| == 1)
    ensures m == Nearest(index, ms, tokens, inherited)
  {
    if inherited && |ms| == 1 { return Some(ms[0]); }
    var previous: Option<Mention> := None;
    var k := 0;
    while k < |ms|
      invariant 0 <= k <= |ms| && FirstAfter(ms, index, 0) == FirstAfter(ms, index, k)
      invariant previous == LastBefore(ms, index, k)
    {
      if ms[k].end <= index {
        previous := Some(ms[k]);
      } else if ms[k].start > index {
        if ms[k].start - index <= FORWARD_REACH && (previous.None? || Preposition(tokens[ms[k].start - 1].value)) {
          return Some(ms[k]);
        }
        break;
      }
      k := k + 1;
    }
    if previous.Some? && index - previous.value.end <= BACKWARD_REACH { return previous; }
    return None;
  }
}
