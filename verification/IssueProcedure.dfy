/** The evidence builder as it runs: nested loops over fields, clauses, tokens and names, with an early exit. */
module IssueProcedure {
  import opened Common
  import opened IssueTokens
  import opened IssueOwners
  import opened IssueEvidence

  lemma CapAppend(a: seq<Proof>, b: seq<Proof>)
    ensures Capped(Capped(a) + b) == Capped(a + b)
    ensures |Capped(a)| == MAX_PROOFS ==> Capped(a + b) == Capped(a)
  {
  }

  method BuildView(v: Vocabulary, names: Names, field: Field) returns (w: View)
    ensures w == ViewOf(v, names, field)
  {
    var runes := Bounded(v.alphabet, field.value);
    var tokens := RelatedTokens(v.alphabet, runes);
    var mentions := IssueOwnerMentions(v, names, tokens);
    w := View(field.section, runes, tokens, mentions);
  }

  method UniqueTerms(a: Alphabet, values: seq<string>) returns (result: seq<string>)
    ensures result == Unique(a, values)
  {
    result := [];
    for k := 0 to |values|
      invariant result == Unique(a, values[..k])
    {
      assert values[..k + 1][..k] == values[..k];
      var value := Trim(a, a.lower(values[k]));
      if value != "" && value !in result { result := result + [value]; }
    }
    assert values[..|values|] == values;
  }

  /** The owners of all fields but the summaries. */
  method PrimaryOwners(v: Vocabulary, names: Names, fields: seq<Field>) returns (primary: seq<string>)
    ensures primary == Primary(v, names, fields, |fields|)
  {
    primary := [];
    for n := 0 to |fields|
      invariant primary == Primary(v, names, fields, n)
    {
      if fields[n].section != "summary" {
        var w := BuildView(v, names, fields[n]);
        for k := 0 to |w.mentions|
          invariant primary == MentionNames(Primary(v, names, fields, n), w.mentions, k)
        {
          primary := AddNames(primary, w.mentions[k].names);
        }
      }
    }
  }

  /** One proof per admissible name, until the evidence is full. */
  method AddNameProofs(v: Vocabulary, names: Names, primary: seq<string>, w: View, start: nat, end: nat, index: nat,
                       owner: Mention, inherited: bool, proofs: seq<Proof>, ghost acc: seq<Proof>) returns (r: seq<Proof>)
    requires start <= index < end <= |w.tokens|
    requires !inherited ==> owner.start < owner.end <= |w.tokens|
    requires proofs == Capped(acc) && |proofs| < MAX_PROOFS
    ensures r == Capped(acc + NameProofs(v, names, primary, w, start, end, index, owner, inherited, |owner.names|))
  {
    r := proofs;
    ghost var all := acc;
    assert acc == acc + [];
    for n := 0 to |owner.names|
      invariant all == acc + NameProofs(v, names, primary, w, start, end, index, owner, inherited, n)
      invariant r == Capped(all)
    {
      ghost var next := NameProofs(v, names, primary, w, start, end, index, owner, inherited, n + 1);
      if |r| < MAX_PROOFS && MayOwn(names, primary, w.section, owner.names[n]) {
        var p := ProofFor(v, w, start, end, index, owner, inherited, owner.names[n]);
        r := r + [p];
      }
      all := acc + next;
    }
  }

  method AddTokenProofs(v: Vocabulary, names: Names, primary: seq<string>, w: View, start: nat, end: nat, o: Owners, index: nat,
                        proofs: seq<Proof>, ghost acc: seq<Proof>) returns (r: seq<Proof>, named: bool)
    requires OwnersFit(w, o) && start <= index < end <= |w.tokens|
    requires proofs == Capped(acc) && |proofs| < MAX_PROOFS
    ensures r == Capped(acc + TokenProofs(v, names, primary, w, start, end, o, index))
    ensures named == NamesIssue(w, names, index)
  {
    assert acc + [] == acc;
    named := NamesIssue(w, names, index);
    if !named || (w.section == "summary" && ConcreteIssueAt(w.tokens, index).0 !in TECHNICAL_TERMS) { return proofs, named; }
    var m := NearestIssueOwner(index, o.mentions, w.tokens, o.inherited);
    if m.None? { return proofs, named; }
    OwnerAtIsUsable(names, w, o, index);
    r := AddNameProofs(v, names, primary, w, start, end, index, m.value, o.inherited, proofs, acc);
  }

  lemma Assoc(a: seq<Proof>, b: seq<Proof>, c: seq<Proof>)
    ensures a + b + c == a + (b + c)
  {
  }

  lemma HadIssueStep(names: Names, w: View, start: nat, index: nat)
    requires start <= index < |w.tokens|
    ensures HadIssue(w, names, start, index + 1) == (HadIssue(w, names, start, index) || NamesIssue(w, names, index))
  {
  }

  method AddNextToken(v: Vocabulary, names: Names, primary: seq<string>, w: View, start: nat, end: nat, o: Owners, index: nat,
                      proofs: seq<Proof>, had: bool, ghost acc: seq<Proof>) returns (r: seq<Proof>, hadIssue: bool)
    requires OwnersFit(w, o) && start <= index < end <= |w.tokens| && |proofs| < MAX_PROOFS
    requires proofs == Capped(acc) && had == HadIssue(w, names, start, index)
    ensures r == Capped(acc + TokenProofs(v, names, primary, w, start, end, o, index))
    ensures hadIssue == HadIssue(w, names, start, index + 1)
  {
    HadIssueStep(names, w, start, index);
    var named;
    r, named := AddTokenProofs(v, names, primary, w, start, end, o, index, proofs, acc);
    hadIssue := had || named;
  }

  /** The proofs of one token, then those of the tokens after it. */
  lemma ClauseStep(v: Vocabulary, names: Names, primary: seq<string>, w: View, start: nat, end: nat, o: Owners, index: nat, done: seq<Proof>)
      returns (here: seq<Proof>, rest: seq<Proof>)
    requires OwnersFit(w, o) && start <= index < end <= |w.tokens|
    ensures here == TokenProofs(v, names, primary, w, start, end, o, index)
    ensures rest == ClauseProofs(v, names, primary, w, start, end, o, index + 1)
    ensures done + ClauseProofs(v, names, primary, w, start, end, o, index) == (done + here) + rest
  {
    here := TokenProofs(v, names, primary, w, start, end, o, index);
    rest := ClauseProofs(v, names, primary, w, start, end, o, index + 1);
    Assoc(done, here, rest);
  }

  /** The token loop of a clause. */
  method AddClauseProofs(v: Vocabulary, names: Names, primary: seq<string>, w: View, start: nat, end: nat, o: Owners,
                         proofs: seq<Proof>, ghost acc: seq<Proof>) returns (r: seq<Proof>, hadIssue: bool)
    requires OwnersFit(w, o) && start <= end <= |w.tokens|
    requires proofs == Capped(acc) && |proofs| < MAX_PROOFS
    ensures r == Capped(acc + ClauseProofs(v, names, primary, w, start, end, o, start))
    ensures |r| < MAX_PROOFS ==> hadIssue == HadIssue(w, names, start, end)
  {
    ghost var total := acc + ClauseProofs(v, names, primary, w, start, end, o, start);
    ghost var done := acc;
    r, hadIssue := proofs, false;
    var index := start;
    while index < end
      invariant start <= index <= end && r == Capped(done) && |r| < MAX_PROOFS && hadIssue == HadIssue(w, names, start, index)
      invariant done + ClauseProofs(v, names, primary, w, start, end, o, index) == total
    {
      ghost var here, rest := ClauseStep(v, names, primary, w, start, end, o, index, done);
      r, hadIssue := AddNextToken(v, names, primary, w, start, end, o, index, r, hadIssue, done);
      done := done + here;
      CapAppend(done, rest);
      if |r| == MAX_PROOFS { return; }
      index := index + 1;
    }
    assert done + [] == done;
  }

  method FindClauseEnd(w: View, start: nat) returns (end: nat)
    requires start < |w.tokens|
    ensures end == ClauseEnd(w, start + 1)
  {
    end := start + 1;
    while end < |w.tokens| && Continues(w, end)
      invariant start < end <= |w.tokens| && ClauseEnd(w, start + 1) == ClauseEnd(w, end)
    {
      end := end + 1;
    }
  }

  /** The proofs of the clause that starts at a token, then those of the clauses after it. */
  lemma FieldStep(v: Vocabulary, names: Names, primary: seq<string>, w: View, start: nat, carry: Carry, done: seq<Proof>)
      returns (end: nat, o: Owners, here: seq<Proof>, rest: seq<Proof>)
    requires ViewFits(w) && start < |w.tokens|
    ensures end == ClauseEnd(w, start + 1) && o == ClauseOwners(w, primary, carry, start, end) && OwnersFit(w, o)
    ensures here == ClauseProofs(v, names, primary, w, start, end, o, start)
    ensures rest == FieldProofs(v, names, primary, w, end, Carry(o.mentions, HadIssue(w, names, start, end)))
    ensures done + FieldProofs(v, names, primary, w, start, carry) == (done + here) + rest
  {
    end := ClauseEnd(w, start + 1);
    o := ClauseOwners(w, primary, carry, start, end);
    ClauseOwnersFit(w, primary, carry, start, end);
    here := ClauseProofs(v, names, primary, w, start, end, o, start);
    rest := FieldProofs(v, names, primary, w, end, Carry(o.mentions, HadIssue(w, names, start, end)));
    Assoc(done, here, rest);
  }

  method AddFieldProofs(v: Vocabulary, names: Names, primary: seq<string>, w: View, proofs: seq<Proof>, ghost acc: seq<Proof>)
      returns (r: seq<Proof>)
    requires ViewFits(w) && proofs == Capped(acc) && |proofs| < MAX_PROOFS
    ensures r == Capped(acc + FieldProofs(v, names, primary, w, 0, Carry([], false)))
  {
    r := proofs;
    ghost var total := acc + FieldProofs(v, names, primary, w, 0, Carry([], false));
    ghost var done := acc;
    var start, carry := 0, Carry([], false);
    while start < |w.tokens|
      invariant 0 <= start <= |w.tokens| && r == Capped(done) && |r| < MAX_PROOFS
      invariant done + FieldProofs(v, names, primary, w, start, carry) == total
    {
      ghost var e, owners, here, rest := FieldStep(v, names, primary, w, start, carry, done);
      var end := FindClauseEnd(w, start);
      var o := ClauseOwners(w, primary, carry, start, end);
      var hadIssue;
      r, hadIssue := AddClauseProofs(v, names, primary, w, start, end, o, r, done);
      done := done + here;
      CapAppend(done, rest);
      if |r| == MAX_PROOFS { return; }
      carry, start := Carry(o.mentions, hadIssue), end;
    }
    assert done + [] == done;
  }

  method ReadField(v: Vocabulary, names: Names, primary: seq<string>, field: Field, proofs: seq<Proof>, ghost acc: seq<Proof>)
      returns (r: seq<Proof>)
    requires proofs == Capped(acc) && |proofs| < MAX_PROOFS
    ensures r == Capped(acc + ProofsOf(v, names, primary, field))
  {
    ViewsFit(v, names, field);
    var w := BuildView(v, names, field);
    r := AddFieldProofs(v, names, primary, w, proofs, acc);
  }

  lemma FieldsStep(v: Vocabulary, names: Names, primary: seq<string>, fields: seq<Field>, n: nat, done: seq<Proof>)
      returns (here: seq<Proof>, rest: seq<Proof>)
    requires n < |fields|
    ensures here == ProofsOf(v, names, primary, fields[n]) && rest == AllProofs(v, names, primary, fields, n + 1)
    ensures done + AllProofs(v, names, primary, fields, n) == (done + here) + rest
  {
    here := ProofsOf(v, names, primary, fields[n]);
    rest := AllProofs(v, names, primary, fields, n + 1);
    Assoc(done, here, rest);
  }

  method ReadFields(v: Vocabulary, names: Names, primary: seq<string>, fields: seq<Field>) returns (proofs: seq<Proof>)
    ensures proofs == Capped(AllProofs(v, names, primary, fields, 0))
  {
    ghost var total := AllProofs(v, names, primary, fields, 0);
    ghost var done: seq<Proof> := [];
    proofs := [];
    assert done + total == total;
    var n := 0;
    while n < |fields|
      invariant 0 <= n <= |fields| && proofs == Capped(done) && |proofs| < MAX_PROOFS
      invariant done + AllProofs(v, names, primary, fields, n) == total
    {
      ghost var here, rest := FieldsStep(v, names, primary, fields, n, done);
      proofs := ReadField(v, names, primary, fields[n], proofs, done);
      done := done + here;
      CapAppend(done, rest);
      if |proofs| == MAX_PROOFS { return; }
      n := n + 1;
    }
    assert done + [] == done;
  }

  /** Every field in turn, until 64 proofs are found. */
  method CollectEvidence(v: Vocabulary, names: Names, fields: seq<Field>) returns (proofs: seq<Proof>)
    ensures proofs == Evidence(v, names, fields)
  {
    var primary := PrimaryOwners(v, names, fields);
    proofs := ReadFields(v, names, primary, fields);
  }

  /** The whole builder: bounded definitions, then the evidence for them. */
  method RelatedIssueEvidence(v: Vocabulary, fields: seq<Field>, subjects: seq<string>, identities: seq<string>, excluded: set<string>)
      returns (proofs: seq<Proof>)
    ensures proofs == Evidence(v, NamesOf(v.alphabet, identities, subjects, excluded), fields)
  {
    var definitions := UniqueTerms(v.alphabet, identities + subjects);
    if |definitions| > MAX_DEFINITIONS { definitions := definitions[..MAX_DEFINITIONS]; }
    proofs := CollectEvidence(v, Names(definitions, (set x | x in identities), excluded), fields);
  }
}
