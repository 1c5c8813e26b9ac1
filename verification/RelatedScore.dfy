/**
 The admission of a remembered record as related to a query. Phrases, identities and subjects are
 extracted by parameters; who proves which issue is decided by the evidence of the records.
 */
module RelatedScore {
  import opened Common
  import opened IssueTokens
  import opened IssueOwners
  import opened IssueEvidence
  import opened IssueLaws
  import opened IssueProcedure

  /** The extraction of phrases, and the filters on them, whose word lists are not modelled. */
  datatype Lexicon = Lexicon(
    vocabulary: Vocabulary,
    authorTokens: string -> set<string>,
    identities: (seq<string>, set<string>) -> (seq<string>, set<string>),
    focusPhrases: (seq<string>, set<string>, set<string>) -> seq<string>,
    subjectFeatures: (seq<string>, seq<string>, set<string>, set<string>) -> seq<string>,
    namedIn: (string, seq<string>, set<string>, set<string>) -> bool,
    withoutSubjects: (seq<string>, seq<string>) -> seq<string>)

  datatype Query = Query(
    terms: seq<string>,
    identities: seq<string>,
    subjects: seq<string>,
    focus: seq<string>,
    excludedAuthors: set<string>,
    issueFields: seq<Field>)

  datatype Item = Item(
    author: string,
    title: string,
    summary: string,
    fullContent: Option<string>,
    tags: seq<string>,
    facets: seq<string>)

  datatype Lane = IdentityLane | SubjectLane | PhraseLane

  /** The name is the identity, the subject or the phrase that admits; terms are the shared issues. */
  datatype Signals = Rejected | Admitted(strength: nat, lane: Lane, name: string, terms: seq<string>)

  function Strength(s: Signals): nat { if s.Rejected? then 0 else s.strength }

  // ---- shared issues ------------------------------------------------------------------------------

  predicate Proves(proofs: seq<Proof>, owner: string, issue: string) {
    exists k :: 0 <= k < |proofs| && proofs[k].owner == owner && proofs[k].issue == issue
  }

  /** The issues that both sides prove of an owner. */
  function CommonIssues(left: seq<Proof>, right: seq<Proof>, owner: string): set<string> {
    set p <- left | p.owner == owner && Proves(right, owner, p.issue) :: p.issue
  }

  /** Of the first n proofs, one term per issue that both sides prove of the owner. */
  function SharedTerms(left: seq<Proof>, right: seq<Proof>, owner: string, n: nat): (r: seq<string>)
    requires n <= |left|
    ensures |r| == |CommonIssues(left[..n], right, owner)|
  {
    if n == 0 then [] else
      var before := SharedTerms(left, right, owner, n - 1);
      CommonIssuesGrow(left, right, owner, n);
      if AddsIssue(left, right, owner, n - 1) then before + [left[n - 1].term] else before
  }

  /** The proof at k is of the owner, on an issue the other side proves too, and not seen before. */
  predicate AddsIssue(left: seq<Proof>, right: seq<Proof>, owner: string, k: nat)
    requires k < |left|
  {
    left[k].owner == owner && Proves(right, owner, left[k].issue) && left[k].issue !in CommonIssues(left[..k], right, owner)
  }

  lemma CommonIssuesGrow(left: seq<Proof>, right: seq<Proof>, owner: string, n: nat)
    requires 0 < n <= |left|
    ensures var before, after := CommonIssues(left[..n - 1], right, owner), CommonIssues(left[..n], right, owner);
            after == (if AddsIssue(left, right, owner, n - 1) then before + {left[n - 1].issue} else before)
  {
    assert left[..n] == left[..n - 1] + [left[n - 1]];
  }

  method IssuesOf(right: seq<Proof>, owner: string) returns (issues: set<string>)
    ensures forall issue :: issue in issues <==> Proves(right, owner, issue)
  {
    issues := {};
    for k := 0 to |right|
      invariant forall issue :: issue in issues <==> Proves(right[..k], owner, issue)
    {
      ProvesOneMore(right, owner, k);
      if right[k].owner == owner { issues := issues + {right[k].issue}; }
    }
    assert right[..|right|] == right;
  }

  method SharedOwnedIssues(left: seq<Proof>, right: seq<Proof>, owner: string) returns (result: seq<string>)
    ensures result == SharedTerms(left, right, owner, |left|)
    ensures |result| == |CommonIssues(left, right, owner)|
  {
    var rightIssues := IssuesOf(right, owner);
    result := [];
    var seen: set<string> := {};
    for k := 0 to |left|
      invariant seen == CommonIssues(left[..k], right, owner)
      invariant result == SharedTerms(left, right, owner, k)
    {
      CommonIssuesGrow(left, right, owner, k + 1);
      if left[k].owner == owner && left[k].issue in rightIssues && left[k].issue !in seen {
        seen := seen + {left[k].issue};
        result := result + [left[k].term];
      }
    }
    assert left[..|left|] == left;
  }

  lemma ProvesOneMore(right: seq<Proof>, owner: string, k: nat)
    requires k < |right|
    ensures forall issue :: Proves(right[..k + 1], owner, issue) <==>
              Proves(right[..k], owner, issue) || (right[k].owner == owner && right[k].issue == issue)
  {
    var less, more := right[..k], right[..k + 1];
    assert more == less + [right[k]];
    forall issue ensures Proves(more, owner, issue) <==> Proves(less, owner, issue) || (right[k].owner == owner && right[k].issue == issue) {
      if Proves(more, owner, issue) {
        var j :| 0 <= j < |more| && more[j].owner == owner && more[j].issue == issue;
        assert j < k ==> less[j] == more[j];
      }
      if Proves(less, owner, issue) {
        var j :| 0 <= j < |less| && less[j].owner == owner && less[j].issue == issue;
        assert more[j] == less[j];
      }
      assert more[k] == right[k];
    }
  }

  /** Two records share an issue of an owner exactly when each has a proof of it. */
  lemma SharedMeansProvedTwice(left: seq<Proof>, right: seq<Proof>, owner: string)
    ensures SharedTerms(left, right, owner, |left|) != [] <==>
            exists p <- left, q <- right :: p.owner == q.owner == owner && p.issue == q.issue
  {
    assert left[..|left|] == left;
    var common := CommonIssues(left, right, owner);
    if |common| > 0 {
      var issue :| issue in common;
      assert Proves(right, owner, issue);
      var k :| 0 <= k < |right| && right[k].owner == owner && right[k].issue == issue;
      assert right[k] in right;
    }
    if p, q :| p in left && q in right && p.owner == q.owner == owner && p.issue == q.issue {
      assert Proves(right, owner, p.issue);
      assert p.issue in common;
    }
  }

  // ---- the best shared name ----------------------------------------------------------------------------

  function Base(lane: Lane): nat { if lane == IdentityLane then 300 else 250 }

  function Candidate(lane: Lane, left: seq<Proof>, right: seq<Proof>, name: string): (c: Signals)
    ensures c.Admitted? <==> Strength(c) > 0
    ensures c.Admitted? ==> c.name == name && c.lane == lane
  {
    var shared := SharedTerms(left, right, name, |left|);
    if shared == [] then Rejected else Admitted(Base(lane) + |shared| * 100, lane, name, shared)
  }

  /** The first strongest of the first n names, among the eligible ones. */
  function Best(lane: Lane, names: seq<string>, eligible: set<string>, left: seq<Proof>, right: seq<Proof>, n: nat): Signals
    requires n <= |names|
  {
    if n == 0 then Rejected else
      var best := Best(lane, names, eligible, left, right, n - 1);
      var here := Candidate(lane, left, right, names[n - 1]);
      if names[n - 1] in eligible && Strength(here) > Strength(best) then here else best
  }

  /** What is admitted is the match of an eligible name, the first of the strongest. */
  lemma {:induction false} BestIsACandidate(lane: Lane, names: seq<string>, eligible: set<string>, left: seq<Proof>, right: seq<Proof>, n: nat)
      returns (k: nat)
    requires n <= |names| && Best(lane, names, eligible, left, right, n).Admitted?
    ensures k < n && names[k] in eligible && Best(lane, names, eligible, left, right, n) == Candidate(lane, left, right, names[k])
    ensures forall j :: 0 <= j < k && names[j] in eligible ==>
              Strength(Candidate(lane, left, right, names[j])) < Strength(Best(lane, names, eligible, left, right, n))
  {
    var here := Candidate(lane, left, right, names[n - 1]);
    if names[n - 1] in eligible && Strength(here) > Strength(Best(lane, names, eligible, left, right, n - 1)) {
      k := n - 1;
      forall j | 0 <= j < k && names[j] in eligible
        ensures Strength(Candidate(lane, left, right, names[j])) < Strength(here)
      {
        BestIsStrongest(lane, names, eligible, left, right, n - 1, j);
      }
    } else {
      k := BestIsACandidate(lane, names, eligible, left, right, n - 1);
    }
  }

  /** No eligible name has a stronger match. */
  lemma {:induction false} BestIsStrongest(lane: Lane, names: seq<string>, eligible: set<string>, left: seq<Proof>, right: seq<Proof>, n: nat, k: nat)
    requires k < n <= |names| && names[k] in eligible
    ensures Strength(Candidate(lane, left, right, names[k])) <= Strength(Best(lane, names, eligible, left, right, n))
  {
    if k < n - 1 { BestIsStrongest(lane, names, eligible, left, right, n - 1, k); }
  }

  method BestShared(lane: Lane, names: seq<string>, eligible: set<string>, left: seq<Proof>, right: seq<Proof>) returns (best: Signals)
    ensures best == Best(lane, names, eligible, left, right, |names|)
  {
    best := Rejected;
    for k := 0 to |names|
      invariant best == Best(lane, names, eligible, left, right, k)
    {
      if names[k] in eligible {
        var shared := SharedOwnedIssues(left, right, names[k]);
        if |shared| > 0 && Base(lane) + |shared| * 100 > Strength(best) {
          best := Admitted(Base(lane) + |shared| * 100, lane, names[k], shared);
        }
      }
    }
  }

  // ---- what is compared -----------------------------------------------------------------------------------

  /** A subject that is itself an issue, or contains one, owns nothing. */
  predicate OwnsIssues(v: Vocabulary, subject: string) {
    ConcreteIssue(subject) == "" && forall k :: 0 <= k < |v.words(subject)| ==> ConcreteIssue(v.words(subject)[k]) == ""
  }

  function OwningSubjects(v: Vocabulary, subjects: seq<string>): (r: seq<string>)
    ensures forall s :: s in r <==> s in subjects && OwnsIssues(v, s)
  {
    if subjects == [] then [] else
      (if OwnsIssues(v, subjects[0]) then [subjects[0]] else []) + OwningSubjects(v, subjects[1..])
  }

  function JoinWords(words: seq<string>): string {
    if words == [] then "" else if |words| == 1 then words[0] else words[0] + " " + JoinWords(words[1..])
  }

  function Canonical(a: Alphabet, phrase: string): string {
    var tokens := TokensOf(a, phrase);
    JoinWords(seq(|tokens|, i requires 0 <= i < |tokens| => tokens[i].value))
  }

  function CanonicalSet(a: Alphabet, phrases: seq<string>): set<string> { set p <- phrases :: Canonical(a, p) }

  function SharedPhrases(a: Alphabet, left: seq<string>, right: set<string>): (r: seq<string>)
    ensures forall p <- r :: p != "" && p in right
  {
    if left == [] then [] else
      var phrase := Canonical(a, left[0]);
      (if phrase != "" && phrase in right then [phrase] else []) + SharedPhrases(a, left[1..], right)
  }

  function ItemFields(item: Item): seq<Field> {
    [Field("title", item.title), Field("summary", item.summary)] +
    (if item.fullContent.Some? then [Field("retained text", item.fullContent.value)] else [])
  }

  function Texts(fields: seq<Field>): seq<string> { seq(|fields|, i requires 0 <= i < |fields| => fields[i].value) }

  /** Everything that is extracted from the two records before the decision. */
  datatype Sides = Sides(
    fields: seq<Field>,
    owners: seq<string>,
    identities: seq<string>,
    excluded: set<string>,
    candidateIdentities: seq<string>,
    candidateSubjects: seq<string>,
    querySubjects: seq<string>,
    sharedSubjects: seq<string>,
    sharedFocus: seq<string>)

  function NamedSubjects(lex: Lexicon, subjects: seq<string>, texts: seq<string>, excluded: set<string>, identityTokens: set<string>): seq<string> {
    if subjects == [] then [] else
      (if lex.namedIn(subjects[0], texts, excluded, identityTokens) then [subjects[0]] else []) +
      NamedSubjects(lex, subjects[1..], texts, excluded, identityTokens)
  }

  function SidesOf(lex: Lexicon, query: Query, item: Item): Sides {
    var v := lex.vocabulary;
    var excluded := query.excludedAuthors + lex.authorTokens(item.author);
    var fields := ItemFields(item);
    var texts := Texts(fields);
    var (candidateIdentities, identityTokens) := lex.identities(texts, excluded);
    var candidateFocus := lex.focusPhrases(texts, excluded, identityTokens);
    var candidateSubjects := OwningSubjects(v, lex.subjectFeatures(texts, item.tags + item.facets, excluded, identityTokens));
    var querySubjects := OwningSubjects(v, query.subjects);
    var sharedFocus := lex.withoutSubjects(SharedPhrases(v.alphabet, Unique(v.alphabet, query.focus), CanonicalSet(v.alphabet, candidateFocus)),
                                           query.subjects + candidateSubjects);
    var named := NamedSubjects(lex, Unique(v.alphabet, querySubjects), texts, excluded, identityTokens);
    var sharedSubjects := SharedPhrases(v.alphabet, Unique(v.alphabet, querySubjects), CanonicalSet(v.alphabet, candidateSubjects + named));
    var owners := Unique(v.alphabet, querySubjects + candidateSubjects);
    var identities := Unique(v.alphabet, query.identities + candidateIdentities);
    Sides(fields, owners, identities, excluded, candidateIdentities, candidateSubjects, querySubjects, sharedSubjects, sharedFocus)
  }

  /** Both records are read with one ownership vocabulary. */
  function SharedNames(lex: Lexicon, s: Sides): Names { NamesOf(lex.vocabulary.alphabet, s.identities, s.owners, s.excluded) }

  function QueryProofs(lex: Lexicon, query: Query, s: Sides): seq<Proof> { Evidence(lex.vocabulary, SharedNames(lex, s), query.issueFields) }

  function ItemProofs(lex: Lexicon, s: Sides): seq<Proof> { Evidence(lex.vocabulary, SharedNames(lex, s), s.fields) }

  predicate Distinct(v: Vocabulary, phrases: seq<string>) {
    exists p <- phrases :: exists w <- v.words(p) :: v.featureTerm(w)
  }

  function ByPhrase(focus: seq<string>): Signals {
    if focus == [] then Rejected else Admitted(|focus| * 120, PhraseLane, focus[0], [])
  }

  // ---- the decision ---------------------------------------------------------------------------------------

  predicate EmptyQuery(query: Query) { query.terms == [] && query.identities == [] && query.subjects == [] && query.focus == [] }

  function IdentityMatch(lex: Lexicon, query: Query, s: Sides): Signals {
    Best(IdentityLane, s.candidateIdentities, CanonicalSet(lex.vocabulary.alphabet, query.identities),
         QueryProofs(lex, query, s), ItemProofs(lex, s), |s.candidateIdentities|)
  }

  function SubjectMatch(lex: Lexicon, query: Query, s: Sides): Signals {
    var subjects := Unique(lex.vocabulary.alphabet, s.querySubjects);
    Best(SubjectLane, subjects, (set x | x in s.sharedSubjects), QueryProofs(lex, query, s), ItemProofs(lex, s), |subjects|)
  }

  predicate PhraseBarred(v: Vocabulary, s: Sides) {
    s.sharedSubjects != [] || s.candidateSubjects != [] || s.candidateIdentities != [] || !Distinct(v, s.sharedFocus)
  }

  function Decision(lex: Lexicon, query: Query, s: Sides): Signals {
    if EmptyQuery(query) then Rejected
    else if query.identities != [] then IdentityMatch(lex, query, s)
    else if s.querySubjects == [] then ByPhrase(s.sharedFocus)
    else if SubjectMatch(lex, query, s).Admitted? then SubjectMatch(lex, query, s)
    else if PhraseBarred(lex.vocabulary, s) then Rejected
    else ByPhrase(s.sharedFocus)
  }

  method ScoreRelatedCandidate(lex: Lexicon, query: Query, item: Item) returns (r: Signals)
    ensures r == Decision(lex, query, SidesOf(lex, query, item))
  {
    if EmptyQuery(query) { return Rejected; }
    var v, s := lex.vocabulary, SidesOf(lex, query, item);
    var queryIssues := RelatedIssueEvidence(v, query.issueFields, s.owners, s.identities, s.excluded);
    var candidateIssues := RelatedIssueEvidence(v, s.fields, s.owners, s.identities, s.excluded);
    if |query.identities| > 0 {
      r := BestShared(IdentityLane, s.candidateIdentities, CanonicalSet(v.alphabet, query.identities), queryIssues, candidateIssues);
      return;
    }
    if |s.querySubjects| > 0 {
      var subjects := UniqueTerms(v.alphabet, s.querySubjects);
      r := BestShared(SubjectLane, subjects, (set x | x in s.sharedSubjects), queryIssues, candidateIssues);
      if r.Admitted? || PhraseBarred(v, s) { return; }
    }
    r := ByPhrase(s.sharedFocus);
  }

  /** One owner and one issue, justified by the text of both records. */
  ghost predicate Witnessed(lex: Lexicon, query: Query, s: Sides, owner: string) {
    exists p <- QueryProofs(lex, query, s), q <- ItemProofs(lex, s) ::
      p.owner == q.owner == owner && p.issue == q.issue && JustifiedIn(lex, s, query.issueFields, p) && JustifiedIn(lex, s, s.fields, q)
  }

  ghost predicate JustifiedIn(lex: Lexicon, s: Sides, fields: seq<Field>, p: Proof) {
    Justified(lex.vocabulary, SharedNames(lex, s), Primary(lex.vocabulary, SharedNames(lex, s), fields, |fields|), fields, p)
  }

  lemma SharedIssueIsWitnessed(lex: Lexicon, query: Query, s: Sides, owner: string)
    requires SharedTerms(QueryProofs(lex, query, s), ItemProofs(lex, s), owner, |QueryProofs(lex, query, s)|) != []
    ensures Witnessed(lex, query, s, owner)
  {
    var left, right := QueryProofs(lex, query, s), ItemProofs(lex, s);
    SharedMeansProvedTwice(left, right, owner);
    var p, q :| p in left && q in right && p.owner == q.owner == owner && p.issue == q.issue;
    EvidenceIsJustified(lex.vocabulary, SharedNames(lex, s), query.issueFields, p);
    EvidenceIsJustified(lex.vocabulary, SharedNames(lex, s), s.fields, q);
    assert JustifiedIn(lex, s, query.issueFields, p) && JustifiedIn(lex, s, s.fields, q);
  }

  /**
   A match for a query with a model identity is admitted only on an identity of both records, a
   subject match only on a shared subject, and both only if one owner and one issue are justified
   by the text of the query and by the text of the candidate.
   */
  lemma AdmissionIsWitnessed(lex: Lexicon, query: Query, s: Sides)
    requires var r := Decision(lex, query, s); r.Admitted? && r.lane != PhraseLane
    ensures var r := Decision(lex, query, s);
      && Witnessed(lex, query, s, r.name)
      && (r.lane == IdentityLane <==> query.identities != [])
      && (r.lane == IdentityLane ==> r.name in s.candidateIdentities && r.name in CanonicalSet(lex.vocabulary.alphabet, query.identities))
      && (r.lane == SubjectLane ==> r.name in s.sharedSubjects && r.name in Unique(lex.vocabulary.alphabet, s.querySubjects))
  {
    var r := Decision(lex, query, s);
    var left, right := QueryProofs(lex, query, s), ItemProofs(lex, s);
    if query.identities != [] {
      var k := BestIsACandidate(IdentityLane, s.candidateIdentities, CanonicalSet(lex.vocabulary.alphabet, query.identities),
                                left, right, |s.candidateIdentities|);
    } else {
      var subjects := Unique(lex.vocabulary.alphabet, s.querySubjects);
      var k := BestIsACandidate(SubjectLane, subjects, (set x | x in s.sharedSubjects), left, right, |subjects|);
    }
    SharedIssueIsWitnessed(lex, query, s, r.name);
  }

  /** Some eligible name has an issue that both sides prove. */
  predicate SharesIssue(left: seq<Proof>, right: seq<Proof>, names: seq<string>, eligible: set<string>) {
    exists name <- names :: name in eligible && CommonIssues(left, right, name) != {}
  }

  lemma BestAdmitsIff(lane: Lane, left: seq<Proof>, right: seq<Proof>, names: seq<string>, eligible: set<string>)
    ensures Best(lane, names, eligible, left, right, |names|).Admitted? <==> SharesIssue(left, right, names, eligible)
  {
    assert left[..|left|] == left;
    if Best(lane, names, eligible, left, right, |names|).Admitted? {
      var k := BestIsACandidate(lane, names, eligible, left, right, |names|);
      assert names[k] in names;
    }
    if name :| name in names && name in eligible && CommonIssues(left, right, name) != {} {
      var k :| 0 <= k < |names| && names[k] == name;
      BestIsStrongest(lane, names, eligible, left, right, |names|, k);
    }
  }

  /**
   Exactly when a candidate is admitted: by a shared issue of a shared identity if the query has an
   identity; else by a shared issue of a shared subject, or by a distinct phrase where the candidate
   names nothing, if the query has an owning subject; else by any shared phrase.
   */
  lemma AdmissionIsExact(lex: Lexicon, query: Query, s: Sides)
    ensures var left, right, a := QueryProofs(lex, query, s), ItemProofs(lex, s), lex.vocabulary.alphabet;
      Decision(lex, query, s).Admitted? <==>
        && !EmptyQuery(query)
        && if query.identities != [] then SharesIssue(left, right, s.candidateIdentities, CanonicalSet(a, query.identities))
           else if s.querySubjects == [] then s.sharedFocus != []
           else SharesIssue(left, right, Unique(a, s.querySubjects), (set x | x in s.sharedSubjects)) || !PhraseBarred(lex.vocabulary, s)
  {
    var left, right, a := QueryProofs(lex, query, s), ItemProofs(lex, s), lex.vocabulary.alphabet;
    BestAdmitsIff(IdentityLane, left, right, s.candidateIdentities, CanonicalSet(a, query.identities));
    BestAdmitsIff(SubjectLane, left, right, Unique(a, s.querySubjects), (set x | x in s.sharedSubjects));
  }

  /** A phrase admits a query with owning subjects only if the candidate names no subject and no model. */
  lemma PhraseNeedsUnnamedCandidate(lex: Lexicon, query: Query, s: Sides)
    requires var r := Decision(lex, query, s); r.Admitted? && r.lane == PhraseLane
    ensures query.identities == [] && s.sharedFocus != [] && Decision(lex, query, s).name == s.sharedFocus[0]
    ensures s.querySubjects != [] ==> s.candidateSubjects == [] && s.candidateIdentities == [] && s.sharedSubjects == []
  {
    var left, right := QueryProofs(lex, query, s), ItemProofs(lex, s);
    var subjects := Unique(lex.vocabulary.alphabet, s.querySubjects);
    if query.identities != [] {
      var k := BestIsACandidate(IdentityLane, s.candidateIdentities, CanonicalSet(lex.vocabulary.alphabet, query.identities),
                                left, right, |s.candidateIdentities|);
    } else if SubjectMatch(lex, query, s).Admitted? {
      var k := BestIsACandidate(SubjectLane, subjects, (set x | x in s.sharedSubjects), left, right, |subjects|);
    }
  }
}
