/** What the two records of a comparison share, and what bars a phrase, said without the procedure's parts. */
module RelatedOutcomes {
  import opened Common
  import opened IssueTokens
  import opened IssueOwners
  import opened IssueEvidence
  import opened RelatedScore

  /** Shared phrases are the canonical forms of the one side that the other side has too. */
  lemma {:induction false} SharedPhrasesAre(a: Alphabet, left: seq<string>, right: set<string>, p: string)
    ensures p in SharedPhrases(a, left, right) <==> p != "" && p in right && exists q <- left :: Canonical(a, q) == p
  {
    if left == [] {
    } else {
      SharedPhrasesAre(a, left[1..], right, p);
      assert left == [left[0]] + left[1..];
    }
  }

  /** The shared focus is what both records focus on, without what only repeats a subject of either. */
  lemma SharedFocusIs(lex: Lexicon, query: Query, item: Item) returns (phrases: seq<string>)
    ensures var s, a := SidesOf(lex, query, item), lex.vocabulary.alphabet;
      var focus := lex.focusPhrases(Texts(s.fields), s.excluded, lex.identities(Texts(s.fields), s.excluded).1);
      && s.sharedFocus == lex.withoutSubjects(phrases, query.subjects + s.candidateSubjects)
      && forall p :: p in phrases <==>
           p != "" && (exists f <- focus :: Canonical(a, f) == p) && (exists q <- Unique(a, query.focus) :: Canonical(a, q) == p)
  {
    var s, a := SidesOf(lex, query, item), lex.vocabulary.alphabet;
    var focus := lex.focusPhrases(Texts(s.fields), s.excluded, lex.identities(Texts(s.fields), s.excluded).1);
    phrases := SharedPhrases(a, Unique(a, query.focus), CanonicalSet(a, focus));
    forall p ensures p in phrases <==>
      p != "" && (exists f <- focus :: Canonical(a, f) == p) && (exists q <- Unique(a, query.focus) :: Canonical(a, q) == p)
    {
      SharedPhrasesAre(a, Unique(a, query.focus), CanonicalSet(a, focus), p);
      CanonicalSetIs(a, focus, p);
    }
  }

  lemma CanonicalSetIs(a: Alphabet, phrases: seq<string>, p: string)
    ensures p in CanonicalSet(a, phrases) <==> exists q <- phrases :: Canonical(a, q) == p
  {
  }

  /** A subject owns issues unless it is one, technical terms included, or contains one as a word. */
  lemma {:induction false} OwningSubjectsAre(v: Vocabulary, subjects: seq<string>, s: string)
    ensures s in OwningSubjects(v, subjects) <==> s in subjects && NoIssue(s) && forall word <- v.words(s) :: NoIssue(word)
  {
    assert OwnsIssues(v, s) <==> NoIssue(s) && forall word <- v.words(s) :: NoIssue(word) by {
      assert forall k :: 0 <= k < |v.words(s)| ==> v.words(s)[k] in v.words(s);
    }
  }

  predicate NoIssue(word: string) { word != "resets" && word !in CONCRETE_ISSUES && word !in TECHNICAL_TERMS }

  lemma NoIssueIs(word: string)
    ensures NoIssue(word) <==> ConcreteIssue(word) == "" || word == ""
  {
    assert "reset" in CONCRETE_ISSUES;
    assert "" !in CONCRETE_ISSUES && "" !in TECHNICAL_TERMS;
  }

  lemma {:induction false} NamedSubjectsAre(lex: Lexicon, subjects: seq<string>, texts: seq<string>, excluded: set<string>, identityTokens: set<string>, s: string)
    ensures s in NamedSubjects(lex, subjects, texts, excluded, identityTokens) <==> s in subjects && lex.namedIn(s, texts, excluded, identityTokens)
  {
    if subjects == [] {
    } else {
      NamedSubjectsAre(lex, subjects[1..], texts, excluded, identityTokens, s);
      assert subjects == [subjects[0]] + subjects[1..];
    }
  }

  /** The texts of the candidate: title, summary and, where it is retained, the whole content. */
  lemma CandidateTexts(lex: Lexicon, query: Query, item: Item)
    ensures var s := SidesOf(lex, query, item);
      s.fields == (if item.fullContent.Some?
                   then [Field("title", item.title), Field("summary", item.summary), Field("retained text", item.fullContent.value)]
                   else [Field("title", item.title), Field("summary", item.summary)])
    ensures SidesOf(lex, query, item).excluded == query.excludedAuthors + lex.authorTokens(item.author)
  {
  }

  /** What is extracted from the candidate, both authors' names excluded. */
  lemma CandidateExtraction(lex: Lexicon, query: Query, item: Item)
    ensures var s := SidesOf(lex, query, item);
      var texts := Texts(s.fields);
      var found := lex.identities(texts, s.excluded);
      && s.candidateIdentities == found.0
      && s.candidateSubjects == OwningSubjects(lex.vocabulary, lex.subjectFeatures(texts, item.tags + item.facets, s.excluded, found.1))
      && s.querySubjects == OwningSubjects(lex.vocabulary, query.subjects)
  {
  }

  /** Both records are read with one vocabulary: the identities and the owning subjects of both. */
  lemma VocabularyIsShared(lex: Lexicon, query: Query, item: Item)
    ensures var s, a := SidesOf(lex, query, item), lex.vocabulary.alphabet;
      && s.identities == Unique(a, query.identities + s.candidateIdentities)
      && s.owners == Unique(a, s.querySubjects + s.candidateSubjects)
      && SharedNames(lex, s).definitions == Definitions(a, s.identities, s.owners)
      && SharedNames(lex, s).excluded == s.excluded && (forall x :: x in SharedNames(lex, s).identities <==> x in s.identities)
  {
  }

  /** A shared subject is an owning subject of the query that the candidate owns too, or names in its texts. */
  lemma SharedSubjectsAre(lex: Lexicon, query: Query, item: Item, p: string)
    ensures var s, a := SidesOf(lex, query, item), lex.vocabulary.alphabet;
      var subjects := Unique(a, s.querySubjects);
      p in s.sharedSubjects <==>
        && p != "" && (exists q <- subjects :: Canonical(a, q) == p)
        && ((exists c <- s.candidateSubjects :: Canonical(a, c) == p)
            || exists q <- subjects :: Canonical(a, q) == p && NamedIn(lex, s, q))
  {
    var s, a := SidesOf(lex, query, item), lex.vocabulary.alphabet;
    var subjects := Unique(a, s.querySubjects);
    var named := NamedSubjects(lex, subjects, Texts(s.fields), s.excluded, lex.identities(Texts(s.fields), s.excluded).1);
    assert s.sharedSubjects == SharedPhrases(a, subjects, CanonicalSet(a, s.candidateSubjects + named));
    SharedPhrasesAre(a, subjects, CanonicalSet(a, s.candidateSubjects + named), p);
    CanonicalSetIs(a, s.candidateSubjects + named, p);
    forall q ensures q in named <==> q in subjects && NamedIn(lex, s, q) {
      NamedSubjectsAre(lex, subjects, Texts(s.fields), s.excluded, lex.identities(Texts(s.fields), s.excluded).1, q);
    }
    EitherList(a, s.candidateSubjects, named, p);
  }

  predicate NamedIn(lex: Lexicon, s: Sides, subject: string) {
    lex.namedIn(subject, Texts(s.fields), s.excluded, lex.identities(Texts(s.fields), s.excluded).1)
  }

  lemma EitherList(a: Alphabet, x: seq<string>, y: seq<string>, p: string)
    ensures (exists q <- x + y :: Canonical(a, q) == p) <==> (exists q <- x :: Canonical(a, q) == p) || (exists q <- y :: Canonical(a, q) == p)
  {
    if q :| q in x && Canonical(a, q) == p { assert q in x + y; }
    if q :| q in y && Canonical(a, q) == p { assert q in x + y; }
  }

  /**
   A query with owning subjects but no identity is answered by a phrase exactly if no subject admits,
   the candidate shares and names no subject and no model, and some shared phrase has a feature word.
   */
  lemma PhraseAdmitsIff(lex: Lexicon, query: Query, s: Sides)
    requires query.identities == [] && query.subjects != [] && s.querySubjects != []
    ensures var r := Decision(lex, query, s);
      (r.Admitted? && r.lane == PhraseLane) <==>
        && SubjectMatch(lex, query, s).Rejected?
        && s.sharedSubjects == [] && s.candidateSubjects == [] && s.candidateIdentities == []
        && exists p <- s.sharedFocus :: exists w <- lex.vocabulary.words(p) :: lex.vocabulary.featureTerm(w)
  {
    if SubjectMatch(lex, query, s).Admitted? {
      var subjects := Unique(lex.vocabulary.alphabet, s.querySubjects);
      var k := BestIsACandidate(SubjectLane, subjects, (set x | x in s.sharedSubjects), QueryProofs(lex, query, s), ItemProofs(lex, s), |subjects|);
    }
  }

  /** A query without identities and owning subjects is answered by any shared phrase, the stronger the more it shares. */
  lemma PlainPhraseAdmits(lex: Lexicon, query: Query, s: Sides)
    requires query.identities == [] && s.querySubjects == []
    ensures var r := Decision(lex, query, s);
      if s.sharedFocus != [] && (query.terms != [] || query.subjects != [] || query.focus != [])
      then r == Admitted(120 * |s.sharedFocus|, PhraseLane, s.sharedFocus[0], []) else r == Rejected
  {
  }

  /** Each further shared issue strengthens a match; an identity counts for more than a subject. */
  lemma StrengthGrows(left: seq<Proof>, right: seq<Proof>, name: string)
    ensures var n := |CommonIssues(left, right, name)|;
      && Strength(Candidate(IdentityLane, left, right, name)) == (if n == 0 then 0 else 300 + 100 * n)
      && Strength(Candidate(SubjectLane, left, right, name)) == (if n == 0 then 0 else 250 + 100 * n)
  {
    assert left[..|left|] == left;
  }

  /** A canonical phrase is its words with single blanks between them. */
  lemma {:induction false} WordsAreJoined(words: seq<string>, last: string)
    ensures JoinWords(words + [last]) == if words == [] then last else JoinWords(words) + " " + last
  {
    if words == [] {
      assert words + [last] == [last];
    } else {
      assert (words + [last])[0] == words[0] && (words + [last])[1..] == words[1..] + [last];
      WordsAreJoined(words[1..], last);
      if |words| > 1 {
        assert JoinWords(words) == words[0] + " " + JoinWords(words[1..]);
        assert words[0] + " " + (JoinWords(words[1..]) + " " + last) == (words[0] + " " + JoinWords(words[1..])) + " " + last;
      }
    }
  }

  /** The first proof of the owner on an issue that the other side proves too. */
  predicate FirstOfIssue(left: seq<Proof>, right: seq<Proof>, owner: string, k: nat) {
    && k < |left| && left[k].owner == owner
    && (exists q <- right :: q.owner == owner && q.issue == left[k].issue)
    && forall j :: 0 <= j < k && left[j].owner == owner ==> left[j].issue != left[k].issue
  }

  lemma AddsIssueIff(left: seq<Proof>, right: seq<Proof>, owner: string, k: nat)
    requires k < |left|
    ensures AddsIssue(left, right, owner, k) <==> FirstOfIssue(left, right, owner, k)
  {
    var issue := left[k].issue;
    if Proves(right, owner, issue) {
      var l :| 0 <= l < |right| && right[l].owner == owner && right[l].issue == issue;
      assert right[l] in right;
    }
    if q :| q in right && q.owner == owner && q.issue == issue { assert Proves(right, owner, issue); }
    if j :| 0 <= j < k && left[j].owner == owner && left[j].issue == issue { assert left[..k][j] in left[..k]; }
  }

  /** The positions of the first proofs on the common issues, in their order. */
  function Firsts(left: seq<Proof>, right: seq<Proof>, owner: string, n: nat): seq<nat> {
    if n == 0 then []
    else if FirstOfIssue(left, right, owner, n - 1) then Firsts(left, right, owner, n - 1) + [n - 1]
    else Firsts(left, right, owner, n - 1)
  }

  lemma {:induction false} FirstsAre(left: seq<Proof>, right: seq<Proof>, owner: string, n: nat, k: nat)
    ensures k in Firsts(left, right, owner, n) <==> k < n && FirstOfIssue(left, right, owner, k)
  {
    if n > 0 { FirstsAre(left, right, owner, n - 1, k); }
  }

  predicate Ascending(at: seq<nat>, n: nat) {
    (forall i :: 0 <= i < |at| ==> at[i] < n) && forall i, j :: 0 <= i < j < |at| ==> at[i] < at[j]
  }

  predicate TermsAt(left: seq<Proof>, at: seq<nat>, terms: seq<string>) {
    |terms| == |at| && forall i :: 0 <= i < |at| ==> at[i] < |left| && terms[i] == left[at[i]].term
  }

  lemma OneMore(left: seq<Proof>, at: seq<nat>, terms: seq<string>, n: nat)
    requires n < |left| && Ascending(at, n) && TermsAt(left, at, terms)
    ensures Ascending(at, n + 1) && Ascending(at + [n], n + 1) && TermsAt(left, at + [n], terms + [left[n].term])
  {
  }

  lemma TermsGrow(left: seq<Proof>, right: seq<Proof>, owner: string, n: nat, before: seq<string>, at: seq<nat>)
    requires n < |left| && before == SharedTerms(left, right, owner, n) && at == Firsts(left, right, owner, n)
    ensures || (SharedTerms(left, right, owner, n + 1) == before + [left[n].term] && Firsts(left, right, owner, n + 1) == at + [n])
            || (SharedTerms(left, right, owner, n + 1) == before && Firsts(left, right, owner, n + 1) == at)
  {
    AddsIssueIff(left, right, owner, n);
  }

  /** The shared terms are those of the first proofs on the common issues, in their order. */
  lemma {:induction false} SharedTermsAre(left: seq<Proof>, right: seq<Proof>, owner: string, n: nat) returns (at: seq<nat>, terms: seq<string>)
    requires n <= |left|
    ensures at == Firsts(left, right, owner, n) && Ascending(at, n)
    ensures terms == SharedTerms(left, right, owner, n) && TermsAt(left, at, terms)
  {
    if n == 0 {
      at, terms := [], [];
    } else {
      var k: nat := n - 1;
      var before, words := SharedTermsAre(left, right, owner, k);
      TermsGrow(left, right, owner, k, words, before);
      OneMore(left, before, words, k);
      at, terms := Firsts(left, right, owner, k + 1), SharedTerms(left, right, owner, k + 1);
    }
  }
}
