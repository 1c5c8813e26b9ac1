/** What an issue proof proves. */
module IssueLaws {
  import opened Common
  import opened IssueTokens
  import opened IssueOwners
  import opened IssueEvidence
  import opened IssueNearest
  import opened IssueClauses

  /** An owner named in the issue's own clause that counts there: the nearest ahead where that counts, else the nearest behind. */
  predicate ExplicitOwner(w: View, index: nat, m: Mention, p: Proof)
    requires index < |w.tokens|
  {
    && (CountsAhead(w, index, m) || CountsBehind(w, index, m)) && p.owner in m.names
    && p.ownerStart == w.tokens[m.start].start && p.ownerEnd == w.tokens[m.end - 1].end
  }

  /** The clause begins with a pronoun, or behind a colon. */
  predicate Continuation(w: View, s: nat)
    requires s < |w.tokens|
  {
    || w.tokens[s].value == "it" || w.tokens[s].value == "its"
    || (s > 0 && exists k :: w.tokens[s - 1].end <= k < w.tokens[s].start && k < |w.runes| && w.runes[k] == ':')
  }

  /**
   An inherited owner: the issue's clause mentions nobody itself. Outside a summary it begins with a
   pronoun or behind a colon and a mention before it named the owner; a summary may also speak of
   the sole primary owner.
   */
  predicate InheritedOwner(w: View, primary: seq<string>, index: nat, p: Proof) {
    && p.ownerStart == p.ownerEnd == -1
    && exists s: nat :: s <= index && InheritsAt(w, primary, s, index, p)
  }

  predicate InheritsAt(w: View, primary: seq<string>, s: nat, index: nat, p: Proof) {
    && InClause(w, s, index) && (forall x <- w.mentions :: !(s <= x.start < ClauseEnd(w, s + 1)))
    && (Continuation(w, s) || (w.section == "summary" && primary == [p.owner]))
    && (w.section != "summary" ==> exists m <- w.mentions :: p.owner in m.names && m.end <= s)
  }

  /** Everything a proof claims about one token of one field. */
  predicate JustifiedAt(names: Names, primary: seq<string>, w: View, index: nat, p: Proof) {
    && index < |w.tokens| && p.field == w.section
    && p.owner in names.definitions
    && p.issue == ConcreteIssueAt(w.tokens, index).0 != "" && !IsOwner(index, w.mentions) && w.tokens[index].value !in names.excluded
    && p.start == w.tokens[index].start < p.end == w.tokens[ConcreteIssueAt(w.tokens, index).1 - 1].end <= |w.runes|
    && (p.field == "summary" ==> p.issue in TECHNICAL_TERMS && p.owner in primary)
    && (if p.continuation then InheritedOwner(w, primary, index, p) else exists m <- w.mentions :: ExplicitOwner(w, index, m, p))
  }

  ghost predicate Justified(v: Vocabulary, names: Names, primary: seq<string>, fields: seq<Field>, p: Proof) {
    exists f, index: nat :: f in fields && ViewFits(ViewOf(v, names, f)) && JustifiedAt(names, primary, ViewOf(v, names, f), index, p)
  }

  lemma IssueSpanFits(w: View, index: nat)
    requires ViewFits(w) && index < |w.tokens|
    ensures w.tokens[index].start < w.tokens[ConcreteIssueAt(w.tokens, index).1 - 1].end <= |w.runes|
  {
    var last := ConcreteIssueAt(w.tokens, index).1 - 1;
    if last > index { assert w.tokens[index].end <= w.tokens[last].start; }
  }

  lemma {:induction false} NameProofsAre(v: Vocabulary, names: Names, primary: seq<string>, w: View, start: nat, end: nat,
                                         index: nat, owner: Mention, inherited: bool, n: nat, p: Proof)
    requires start <= index < end <= |w.tokens| && n <= |owner.names|
    requires !inherited ==> owner.start < owner.end <= |w.tokens|
    ensures p in NameProofs(v, names, primary, w, start, end, index, owner, inherited, n) <==>
            exists k :: 0 <= k < n && MayOwn(names, primary, w.section, owner.names[k])
              && p == ProofFor(v, w, start, end, index, owner, inherited, owner.names[k])
  {
    if n == 0 {
    } else {
      NameProofsAre(v, names, primary, w, start, end, index, owner, inherited, n - 1, p);
    }
  }

  /** What a proof of one token says, whoever the clause's owners are. */
  lemma TokenProofMeans(v: Vocabulary, names: Names, primary: seq<string>, w: View, start: nat, end: nat, o: Owners, index: nat, p: Proof)
      returns (m: Mention)
    requires OwnersFit(w, o) && start <= index < end <= |w.tokens|
    requires p in TokenProofs(v, names, primary, w, start, end, o, index)
    ensures OwnerAt(names, w, o, index) == Some(m)
    ensures p.owner in m.names && MayOwn(names, primary, w.section, p.owner)
    ensures !o.inherited ==> m.start < m.end <= |w.tokens|
    ensures p == ProofFor(v, w, start, end, index, m, o.inherited, p.owner)
  {
    m := OwnerAt(names, w, o, index).value;
    OwnerAtIsUsable(names, w, o, index);
    NameProofsAre(v, names, primary, w, start, end, index, m, o.inherited, |m.names|, p);
  }

  /** An owner that is not inherited is the mention of the clause that counts. */
  lemma OwnMentionCounts(w: View, names: Names, primary: seq<string>, carry: Carry, start: nat, index: nat, m: Mention)
    requires ViewFits(w) && InClause(w, start, index)
    requires var o := ClauseOwners(w, primary, carry, start, ClauseEnd(w, start + 1));
             OwnersFit(w, o) && !o.inherited && OwnerAt(names, w, o, index) == Some(m)
    ensures m in w.mentions && (CountsAhead(w, index, m) || CountsBehind(w, index, m))
  {
    OwnerInClauseIs(w, start, index, m);
  }

  /** An inherited clause has no mention of its own, and a reason to inherit. */
  lemma InheritingClause(w: View, primary: seq<string>, carry: Carry, start: nat)
    requires ViewFits(w) && start < |w.tokens| && ClauseOwners(w, primary, carry, start, ClauseEnd(w, start + 1)).inherited
    ensures forall x <- w.mentions :: !(start <= x.start < ClauseEnd(w, start + 1))
    ensures var o := ClauseOwners(w, primary, carry, start, ClauseEnd(w, start + 1));
      || (Continuation(w, start) && o.mentions == carry.mentions && |carry.mentions| == 1)
      || (w.section == "summary" && |primary| == 1 && |o.mentions| == 1 && o.mentions[0].names == primary)
  {
    forall x | x in w.mentions ensures !(start <= x.start < ClauseEnd(w, start + 1)) { LocalIff(w, start, ClauseEnd(w, start + 1), x); }
  }

  /** A sole carried owner is an earlier mention, except in a summary. */
  predicate CarryFits(w: View, start: nat, ms: seq<Mention>) {
    w.section != "summary" && |ms| == 1 ==> ms[0] in w.mentions && ms[0].end <= start
  }

  /** What a clause hands on fits the next clause. */
  lemma OwnersCarryOn(w: View, primary: seq<string>, carry: Carry, start: nat)
    requires ViewFits(w) && start < |w.tokens| && CarryFits(w, start, carry.mentions)
    ensures CarryFits(w, ClauseEnd(w, start + 1), ClauseOwners(w, primary, carry, start, ClauseEnd(w, start + 1)).mentions)
  {
    var end := ClauseEnd(w, start + 1);
    var o := ClauseOwners(w, primary, carry, start, end);
    if !o.inherited && |o.mentions| == 1 {
      var m := o.mentions[0];
      LocalIff(w, start, end, m);
      LocalMentionEndsInClause(w, start, m);
    }
  }

  lemma TokenProofIsJustified(v: Vocabulary, names: Names, primary: seq<string>, w: View, start: nat, carry: Carry, index: nat, p: Proof)
    requires ViewFits(w) && InClause(w, start, index)
    requires var end := ClauseEnd(w, start + 1);
             var o := ClauseOwners(w, primary, carry, start, end);
             CarryFits(w, start, carry.mentions) && OwnersFit(w, o) && p in TokenProofs(v, names, primary, w, start, end, o, index)
    ensures JustifiedAt(names, primary, w, index, p)
  {
    var end := ClauseEnd(w, start + 1);
    var o := ClauseOwners(w, primary, carry, start, end);
    var m := TokenProofMeans(v, names, primary, w, start, end, o, index, p);
    IssueSpanFits(w, index);
    assert NamesIssue(w, names, index);
    if o.inherited {
      InheritingClause(w, primary, carry, start);
      assert m == o.mentions[0];
      assert InheritsAt(w, primary, start, index, p);
    } else {
      OwnMentionCounts(w, names, primary, carry, start, index, m);
      assert ExplicitOwner(w, index, m, p);
    }
  }

  lemma {:induction false} ClauseProofOrigin(v: Vocabulary, names: Names, primary: seq<string>, w: View, start: nat, end: nat,
                                             o: Owners, from: nat, p: Proof) returns (i: nat)
    requires OwnersFit(w, o) && start <= from <= end <= |w.tokens|
    requires p in ClauseProofs(v, names, primary, w, start, end, o, from)
    ensures from <= i < end && p in TokenProofs(v, names, primary, w, start, end, o, i)
    decreases end - from
  {
    if p in TokenProofs(v, names, primary, w, start, end, o, from) { return from; }
    i := ClauseProofOrigin(v, names, primary, w, start, end, o, from + 1, p);
  }

  lemma {:induction false} FieldProofIsJustified(v: Vocabulary, names: Names, primary: seq<string>, w: View, start: nat, carry: Carry, p: Proof)
      returns (index: nat)
    requires ViewFits(w) && start <= |w.tokens| && (start < |w.tokens| ==> ClauseStart(w, start))
    requires CarryFits(w, start, carry.mentions) && p in FieldProofs(v, names, primary, w, start, carry)
    ensures JustifiedAt(names, primary, w, index, p)
    decreases |w.tokens| - start
  {
    var end := ClauseEnd(w, start + 1);
    var o := ClauseOwners(w, primary, carry, start, end);
    ClauseOwnersFit(w, primary, carry, start, end);
    if p in ClauseProofs(v, names, primary, w, start, end, o, start) {
      index := ClauseProofOrigin(v, names, primary, w, start, end, o, start, p);
      TokenProofIsJustified(v, names, primary, w, start, carry, index, p);
    } else {
      OwnersCarryOn(w, primary, carry, start);
      index := FieldProofIsJustified(v, names, primary, w, end, Carry(o.mentions, HadIssue(w, names, start, end)), p);
    }
  }

  lemma {:induction false} AllProofOrigin(v: Vocabulary, names: Names, primary: seq<string>, fields: seq<Field>, n: nat, p: Proof)
      returns (k: nat)
    requires n <= |fields| && p in AllProofs(v, names, primary, fields, n)
    ensures n <= k < |fields| && p in ProofsOf(v, names, primary, fields[k])
    decreases |fields| - n
  {
    if p in ProofsOf(v, names, primary, fields[n]) { return n; }
    k := AllProofOrigin(v, names, primary, fields, n + 1, p);
  }

  /**
   Every proof names a definition, its issue starts outside all mentions, its span lies in the
   field, an explicit owner is the mention of its clause that counts, an inherited one was named
   before, and a summary proves only technical terms of a primary owner.
   */
  lemma EvidenceIsJustified(v: Vocabulary, names: Names, fields: seq<Field>, p: Proof)
    requires p in Evidence(v, names, fields)
    ensures Justified(v, names, Primary(v, names, fields, |fields|), fields, p)
  {
    var primary := Primary(v, names, fields, |fields|);
    var k := AllProofOrigin(v, names, primary, fields, 0, p);
    var w := ViewOf(v, names, fields[k]);
    ViewsFit(v, names, fields[k]);
    var index := FieldProofIsJustified(v, names, primary, w, 0, Carry([], false), p);
    assert fields[k] in fields;
  }

  /** A boundary owns nothing, unless a definition spells one; and at most 64 proofs are given. */
  lemma BoundariesOwnNothing(v: Vocabulary, names: Names, fields: seq<Field>, p: Proof, value: string)
    requires p in Evidence(v, names, fields) && forall d <- names.definitions :: !("boundary:" <= d)
    ensures p.owner != "boundary:" + value && |Evidence(v, names, fields)| <= 64
  {
    EvidenceIsJustified(v, names, fields, p);
    assert p.owner in names.definitions && "boundary:" <= "boundary:" + value;
  }

  predicate ProvesAt(proofs: seq<Proof>, w: View, index: nat, owner: string)
    requires index < |w.tokens|
  {
    exists p <- proofs :: p.owner == owner && p.issue == ConcreteIssueAt(w.tokens, index).0 && p.start == w.tokens[index].start
  }

  lemma ProvesAtMore(less: seq<Proof>, more: seq<Proof>, w: View, index: nat, name: string)
    requires index < |w.tokens| && ProvesAt(less, w, index, name) && forall p <- less :: p in more
    ensures ProvesAt(more, w, index, name)
  {
  }

  lemma TokenEvidenceIsComplete(v: Vocabulary, names: Names, primary: seq<string>, w: View, start: nat, end: nat,
                                o: Owners, index: nat, name: string)
    requires OwnersFit(w, o) && start <= index < end <= |w.tokens|
    requires var m := OwnerAt(names, w, o, index); m.Some? && name in m.value.names && MayOwn(names, primary, w.section, name)
    ensures ProvesAt(TokenProofs(v, names, primary, w, start, end, o, index), w, index, name)
  {
    var m := OwnerAt(names, w, o, index);
    OwnerAtIsUsable(names, w, o, index);
    var p := ProofFor(v, w, start, end, index, m.value, o.inherited, name);
    NameProofsAre(v, names, primary, w, start, end, index, m.value, o.inherited, |m.value.names|, p);
    assert p in TokenProofs(v, names, primary, w, start, end, o, index);
  }

  /** Conversely, in a clause every issue with an owner is proved for each admissible name of that owner. */
  lemma {:induction false} ClauseEvidenceIsComplete(v: Vocabulary, names: Names, primary: seq<string>, w: View, start: nat, end: nat,
                                                    o: Owners, from: nat, index: nat, name: string)
    requires OwnersFit(w, o) && start <= from <= index < end <= |w.tokens|
    requires var m := OwnerAt(names, w, o, index); m.Some? && name in m.value.names && MayOwn(names, primary, w.section, name)
    ensures ProvesAt(ClauseProofs(v, names, primary, w, start, end, o, from), w, index, name)
    decreases end - from
  {
    var here, rest := TokenProofs(v, names, primary, w, start, end, o, from), ClauseProofs(v, names, primary, w, start, end, o, from + 1);
    if from < index {
      ClauseEvidenceIsComplete(v, names, primary, w, start, end, o, from + 1, index, name);
      ProvesAtMore(rest, here + rest, w, index, name);
    } else {
      TokenEvidenceIsComplete(v, names, primary, w, start, end, o, index, name);
      ProvesAtMore(here, here + rest, w, index, name);
    }
  }

  // ---- completeness of a record's evidence ---------------------------------------------------------

  /** The clause that a token belongs to, and who may own its issues. */
  datatype Clause = Clause(start: nat, end: nat, owners: Owners)

  function ClauseOf(names: Names, primary: seq<string>, w: View, start: nat, carry: Carry, index: nat): (c: Clause)
    requires ViewFits(w) && start <= index < |w.tokens|
    ensures start <= c.start <= index < c.end <= |w.tokens| && OwnersFit(w, c.owners)
    decreases |w.tokens| - start
  {
    var end := ClauseEnd(w, start + 1);
    var o := ClauseOwners(w, primary, carry, start, end);
    ClauseOwnersFit(w, primary, carry, start, end);
    if index < end then Clause(start, end, o)
    else ClauseOf(names, primary, w, end, Carry(o.mentions, HadIssue(w, names, start, end)), index)
  }

  /** A name that the engine attributes the issue at a token to. */
  predicate Attributed(names: Names, primary: seq<string>, w: View, start: nat, carry: Carry, index: nat, name: string)
    requires ViewFits(w) && start <= index < |w.tokens|
  {
    var m := OwnerAt(names, w, ClauseOf(names, primary, w, start, carry, index).owners, index);
    m.Some? && name in m.value.names && MayOwn(names, primary, w.section, name)
  }

  lemma {:induction false} FieldEvidenceIsComplete(v: Vocabulary, names: Names, primary: seq<string>, w: View, start: nat, carry: Carry,
                                                   index: nat, name: string)
    requires ViewFits(w) && start <= index < |w.tokens| && Attributed(names, primary, w, start, carry, index, name)
    ensures ProvesAt(FieldProofs(v, names, primary, w, start, carry), w, index, name)
    decreases |w.tokens| - start
  {
    var end := ClauseEnd(w, start + 1);
    var o := ClauseOwners(w, primary, carry, start, end);
    ClauseOwnersFit(w, primary, carry, start, end);
    var next := Carry(o.mentions, HadIssue(w, names, start, end));
    var here := ClauseProofs(v, names, primary, w, start, end, o, start);
    var rest := FieldProofs(v, names, primary, w, end, next);
    assert FieldProofs(v, names, primary, w, start, carry) == here + rest;
    if index < end {
      ClauseEvidenceIsComplete(v, names, primary, w, start, end, o, start, index, name);
      ProvesAtMore(here, here + rest, w, index, name);
    } else {
      FieldEvidenceIsComplete(v, names, primary, w, end, next, index, name);
      ProvesAtMore(rest, here + rest, w, index, name);
    }
  }

  /** A token of a field whose issue the engine attributes to a name. */
  predicate AttributedIn(v: Vocabulary, names: Names, fields: seq<Field>, f: Field, index: nat, name: string) {
    var w := ViewOf(v, names, f);
    ViewFits(w) && index < |w.tokens| && Attributed(names, Primary(v, names, fields, |fields|), w, 0, Carry([], false), index, name)
  }

  /** The proofs of one field are among those of the record. */
  lemma {:induction false} AllProofsProve(v: Vocabulary, names: Names, primary: seq<string>, fields: seq<Field>, n: nat, k: nat,
                                          w: View, index: nat, name: string)
    requires n <= k < |fields| && index < |w.tokens| && ProvesAt(ProofsOf(v, names, primary, fields[k]), w, index, name)
    ensures ProvesAt(AllProofs(v, names, primary, fields, n), w, index, name)
    decreases |fields| - n
  {
    var here, rest := ProofsOf(v, names, primary, fields[n]), AllProofs(v, names, primary, fields, n + 1);
    if n < k {
      AllProofsProve(v, names, primary, fields, n + 1, k, w, index, name);
      ProvesAtMore(rest, here + rest, w, index, name);
    } else {
      ProvesAtMore(here, here + rest, w, index, name);
    }
  }

  /** If a record has at most 64 proofs before the cut, every issue it attributes to a name is among its evidence. */
  lemma EvidenceIsComplete(v: Vocabulary, names: Names, fields: seq<Field>, k: nat, index: nat, name: string)
    requires k < |fields| && AttributedIn(v, names, fields, fields[k], index, name)
    requires |AllProofs(v, names, Primary(v, names, fields, |fields|), fields, 0)| <= MAX_PROOFS
    ensures ProvesAt(Evidence(v, names, fields), ViewOf(v, names, fields[k]), index, name)
  {
    var primary, w := Primary(v, names, fields, |fields|), ViewOf(v, names, fields[k]);
    FieldEvidenceIsComplete(v, names, primary, w, 0, Carry([], false), index, name);
    AllProofsProve(v, names, primary, fields, 0, k, w, index, name);
  }
}
