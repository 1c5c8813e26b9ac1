/**
 Proofs that a text attributes a concrete issue to a named owner: clause by clause, with explicit
 owners, pronoun and heading continuation, and summaries that may only describe a sole owner.
 */
module IssueEvidence {
  import opened Common
  import opened IssueTokens
  import opened IssueOwners

  const MAX_DEFINITIONS: nat := 32
  const MAX_PROOFS: nat := 64

  datatype Field = Field(section: string, value: string)

  datatype Proof = Proof(
    owner: string,
    issue: string,
    field: string,
    term: string,
    start: nat,
    end: nat,
    ownerStart: int,
    ownerEnd: int,
    continuation: bool)

  /** A field as the engine sees it. */
  datatype View = View(section: string, runes: string, tokens: seq<Token>, mentions: seq<Mention>)

  function ViewOf(v: Vocabulary, names: Names, field: Field): View {
    var runes := Bounded(v.alphabet, field.value);
    var tokens := TokensOf(v.alphabet, runes);
    View(field.section, runes, tokens, MentionsOf(v, names, tokens))
  }

  /** Token offsets lie inside the field, and mentions inside the tokens. */
  predicate ViewFits(w: View) {
    && WellPlaced(w.tokens, 0, w.mentions)
    && (forall k :: 0 <= k < |w.tokens| ==> w.tokens[k].start < w.tokens[k].end <= |w.runes|)
    && (forall k, l :: 0 <= k < l < |w.tokens| ==> w.tokens[k].end <= w.tokens[l].start)
  }

  lemma ViewsFit(v: Vocabulary, names: Names, field: Field)
    ensures ViewFits(ViewOf(v, names, field))
  {
    var runes := Bounded(v.alphabet, field.value);
    BoundedTwiceIsPrefix(v.alphabet, field.value);
    TokensAreWellFormed(v.alphabet, Bounded(v.alphabet, runes), 0, false);
    MentionsAreSound(v, names, TokensOf(v.alphabet, runes));
  }

  // ---- clauses --------------------------------------------------------------------------------

  /** Strictly inside a mention: a break there does not end a clause. */
  predicate Within(i: nat, ms: seq<Mention>) { exists k :: 0 <= k < |ms| && ms[k].start < i < ms[k].end }

  predicate IsOwner(i: nat, ms: seq<Mention>) { exists k :: 0 <= k < |ms| && ms[k].start <= i < ms[k].end }

  predicate Continues(w: View, i: nat)
    requires i < |w.tokens|
  {
    !w.tokens[i].breakBefore || Within(i, w.mentions)
  }

  /** The end of the clause that reaches at least up to e. */
  function ClauseEnd(w: View, e: nat): (r: nat)
    requires e <= |w.tokens|
    ensures e <= r <= |w.tokens|
    ensures forall j :: e <= j < r ==> Continues(w, j)
    ensures r < |w.tokens| ==> !Continues(w, r)
    decreases |w.tokens| - e
  {
    if e < |w.tokens| && Continues(w, e) then ClauseEnd(w, e + 1) else e
  }

  /** The first n mentions that start in the clause. */
  function Local(ms: seq<Mention>, start: nat, end: nat, n: nat): seq<Mention>
    requires n <= |ms|
  {
    if n == 0 then [] else
      Local(ms, start, end, n - 1) + (if start <= ms[n - 1].start < end then [ms[n - 1]] else [])
  }

  lemma {:induction false} LocalMembers(ms: seq<Mention>, start: nat, end: nat, n: nat, m: Mention) returns (l: nat)
    requires n <= |ms| && m in Local(ms, start, end, n)
    ensures l < n && ms[l] == m && start <= m.start < end
  {
    if m in Local(ms, start, end, n - 1) {
      l := LocalMembers(ms, start, end, n - 1, m);
    } else {
      l := n - 1;
    }
  }

  /** Who may own the issues of a clause. */
  datatype Owners = Owners(mentions: seq<Mention>, inherited: bool)

  predicate OwnersFit(w: View, o: Owners) {
    if o.inherited then |o.mentions| == 1 else InBounds(w.tokens, o.mentions)
  }

  predicate Pronoun(word: string) { word == "it" || word == "its" }

  /** A colon between the previous token and this one. */
  predicate HeadingBefore(w: View, start: nat)
    requires start < |w.tokens|
  {
    start > 0 && exists k :: w.tokens[start - 1].end <= k < w.tokens[start].start && k < |w.runes| && w.runes[k] == ':'
  }

  /** What one clause hands to the next. */
  datatype Carry = Carry(mentions: seq<Mention>, hadIssue: bool)

  function ClauseOwners(w: View, primary: seq<string>, carry: Carry, start: nat, end: nat): Owners
    requires start < end <= |w.tokens|
  {
    var local := Local(w.mentions, start, end, |w.mentions|);
    if local == [] && |carry.mentions| == 1 && (Pronoun(w.tokens[start].value) || (HeadingBefore(w, start) && !carry.hadIssue))
    then Owners(carry.mentions, true)
    else if local == [] && w.section == "summary" && |primary| == 1
    then Owners([Mention([primary[0]], start, start)], true)
    else Owners(local, false)
  }

  lemma ClauseOwnersFit(w: View, primary: seq<string>, carry: Carry, start: nat, end: nat)
    requires ViewFits(w) && start < end <= |w.tokens|
    ensures OwnersFit(w, ClauseOwners(w, primary, carry, start, end))
  {
    var local := Local(w.mentions, start, end, |w.mentions|);
    forall k | 0 <= k < |local| ensures local[k].start < local[k].end <= |w.tokens| {
      var l := LocalMembers(w.mentions, start, end, |w.mentions|, local[k]);
    }
  }

  // ---- the proofs of one clause ------------------------------------------------------------------

  predicate NamesIssue(w: View, names: Names, index: nat)
    requires index < |w.tokens|
  {
    ConcreteIssueAt(w.tokens, index).0 != "" && w.tokens[index].value !in names.excluded && !IsOwner(index, w.mentions)
  }

  function Term(v: Vocabulary, w: View, start: nat, end: nat, index: nat): string
    requires start <= index < end <= |w.tokens|
  {
    var (issue, issueEnd) := ConcreteIssueAt(w.tokens, index);
    var t := w.tokens;
    if issueEnd > index + 1 then issue
    else if index > start && !t[index].breakBefore && !IsOwner(index - 1, w.mentions) && v.focusedPair(t[index - 1].value, t[index].value)
    then t[index - 1].value + " " + t[index].value
    else if index + 1 < end && !t[index + 1].breakBefore && !IsOwner(index + 1, w.mentions) && v.focusedPair(t[index].value, t[index + 1].value)
    then t[index].value + " " + t[index + 1].value
    else t[index].value
  }

  function ProofFor(v: Vocabulary, w: View, start: nat, end: nat, index: nat, owner: Mention, inherited: bool, name: string): Proof
    requires start <= index < end <= |w.tokens|
    requires !inherited ==> owner.start < owner.end <= |w.tokens|
  {
    var (issue, issueEnd) := ConcreteIssueAt(w.tokens, index);
    Proof(name, issue, w.section, Term(v, w, start, end, index), w.tokens[index].start, w.tokens[issueEnd - 1].end,
          if inherited then -1 else w.tokens[owner.start].start, if inherited then -1 else w.tokens[owner.end - 1].end, inherited)
  }

  predicate MayOwn(names: Names, primary: seq<string>, section: string, name: string) {
    name in names.definitions && (section == "summary" ==> name in primary)
  }

  /** One proof per admissible name of the owner, for the first n names. */
  function NameProofs(v: Vocabulary, names: Names, primary: seq<string>, w: View, start: nat, end: nat, index: nat,
                      owner: Mention, inherited: bool, n: nat): seq<Proof>
    requires start <= index < end <= |w.tokens| && n <= |owner.names|
    requires !inherited ==> owner.start < owner.end <= |w.tokens|
  {
    if n == 0 then [] else
      NameProofs(v, names, primary, w, start, end, index, owner, inherited, n - 1) +
      (if MayOwn(names, primary, w.section, owner.names[n - 1])
       then [ProofFor(v, w, start, end, index, owner, inherited, owner.names[n - 1])] else [])
  }

  /** The owner that an issue is attributed to; a summary may only speak of technical terms. */
  function OwnerAt(names: Names, w: View, o: Owners, index: nat): Option<Mention>
    requires OwnersFit(w, o) && index < |w.tokens|
  {
    if !NamesIssue(w, names, index) || (w.section == "summary" && ConcreteIssueAt(w.tokens, index).0 !in TECHNICAL_TERMS) then None
    else Nearest(index, o.mentions, w.tokens, o.inherited)
  }

  lemma OwnerAtIsUsable(names: Names, w: View, o: Owners, index: nat)
    requires OwnersFit(w, o) && index < |w.tokens|
    ensures var m := OwnerAt(names, w, o, index);
            m.Some? && !o.inherited ==>
              m.value in o.mentions && m.value.start < m.value.end <= |w.tokens| && WithinReach(index, m.value)
  {
    if !o.inherited { NearestIsWithinReach(index, o.mentions, w.tokens, false); }
  }

  function TokenProofs(v: Vocabulary, names: Names, primary: seq<string>, w: View, start: nat, end: nat, o: Owners, index: nat): seq<Proof>
    requires OwnersFit(w, o) && start <= index < end <= |w.tokens|
  {
    var m := OwnerAt(names, w, o, index);
    OwnerAtIsUsable(names, w, o, index);
    if m.None? then []
    else NameProofs(v, names, primary, w, start, end, index, m.value, o.inherited, |m.value.names|)
  }

  /** The proofs of a clause, from one of its tokens on. */
  function ClauseProofs(v: Vocabulary, names: Names, primary: seq<string>, w: View, start: nat, end: nat, o: Owners, index: nat): seq<Proof>
    requires OwnersFit(w, o) && start <= index <= end <= |w.tokens|
    decreases end - index
  {
    if index == end then [] else
      TokenProofs(v, names, primary, w, start, end, o, index) + ClauseProofs(v, names, primary, w, start, end, o, index + 1)
  }

  /** Some token from start up to end names an issue. */
  predicate HadIssue(w: View, names: Names, start: nat, end: nat)
    requires end <= |w.tokens|
  {
    start < end && (HadIssue(w, names, start, end - 1) || NamesIssue(w, names, end - 1))
  }

  /** The proofs of a field from one clause on. */
  function FieldProofs(v: Vocabulary, names: Names, primary: seq<string>, w: View, start: nat, carry: Carry): seq<Proof>
    requires ViewFits(w) && start <= |w.tokens|
    decreases |w.tokens| - start
  {
    if start == |w.tokens| then [] else
      var end := ClauseEnd(w, start + 1);
      var o := ClauseOwners(w, primary, carry, start, end);
      ClauseOwnersFit(w, primary, carry, start, end);
      ClauseProofs(v, names, primary, w, start, end, o, start) +
      FieldProofs(v, names, primary, w, end, Carry(o.mentions, HadIssue(w, names, start, end)))
  }

  function ProofsOf(v: Vocabulary, names: Names, primary: seq<string>, field: Field): seq<Proof> {
    ViewsFit(v, names, field);
    FieldProofs(v, names, primary, ViewOf(v, names, field), 0, Carry([], false))
  }

  /** The proofs of a record, from one of its fields on. */
  function AllProofs(v: Vocabulary, names: Names, primary: seq<string>, fields: seq<Field>, n: nat): seq<Proof>
    requires n <= |fields|
    decreases |fields| - n
  {
    if n == |fields| then [] else ProofsOf(v, names, primary, fields[n]) + AllProofs(v, names, primary, fields, n + 1)
  }

  function Capped(proofs: seq<Proof>): seq<Proof> { if |proofs| > MAX_PROOFS then proofs[..MAX_PROOFS] else proofs }

  // ---- definitions and primary owners -------------------------------------------------------------

  /** Lower-cased, trimmed, without empties and repetitions, in order. */
  function Unique(a: Alphabet, values: seq<string>): seq<string> {
    if values == [] then [] else
      var rest := Unique(a, values[..|values| - 1]);
      var value := Trim(a, a.lower(values[|values| - 1]));
      if value == "" || value in rest then rest else rest + [value]
  }

  function Definitions(a: Alphabet, identities: seq<string>, subjects: seq<string>): seq<string> {
    var all := Unique(a, identities + subjects);
    if |all| > MAX_DEFINITIONS then all[..MAX_DEFINITIONS] else all
  }

  /** The ownership vocabulary of a comparison. */
  function NamesOf(a: Alphabet, identities: seq<string>, subjects: seq<string>, excluded: set<string>): Names {
    Names(Definitions(a, identities, subjects), (set x | x in identities), excluded)
  }

  function AddNames(known: seq<string>, more: seq<string>): seq<string>
    decreases |more|
  {
    if more == [] then known else AddNames(if more[0] in known then known else known + [more[0]], more[1..])
  }

  function MentionNames(known: seq<string>, ms: seq<Mention>, n: nat): seq<string>
    requires n <= |ms|
  {
    if n == 0 then known else AddNames(MentionNames(known, ms, n - 1), ms[n - 1].names)
  }

  /** The owners, boundary names included, that the first n fields mention outside of summaries. */
  function Primary(v: Vocabulary, names: Names, fields: seq<Field>, n: nat): seq<string>
    requires n <= |fields|
  {
    if n == 0 then [] else
      var before := Primary(v, names, fields, n - 1);
      if fields[n - 1].section == "summary" then before else
        var ms := ViewOf(v, names, fields[n - 1]).mentions;
        MentionNames(before, ms, |ms|)
  }

  /** All the evidence of a record. */
  function Evidence(v: Vocabulary, names: Names, fields: seq<Field>): seq<Proof> {
    Capped(AllProofs(v, names, Primary(v, names, fields, |fields|), fields, 0))
  }
}
