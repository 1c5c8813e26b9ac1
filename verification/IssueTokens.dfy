/**
 The tokenizer of the related-content engine: maximal runs of letters or of digits, with their
 offsets and whether a clause break precedes them. Character classes and case folding are
 parameters; an over-long run is dropped, and takes its clause break with it.
 */
module IssueTokens {
  const MAX_FIELD: nat := 1600
  const MAX_TERM: nat := 48

  datatype Alphabet = Alphabet(
    isLetter: char -> bool,
    isNumber: char -> bool,
    isSpace: char -> bool,
    lower: string -> string)

  datatype Token = Token(value: string, original: string, breakBefore: bool, start: nat, end: nat)

  datatype Class = Letter | Digit | Gap

  function ClassOf(a: Alphabet, c: char): Class {
    if !a.isLetter(c) && !a.isNumber(c) then Gap else if a.isNumber(c) then Digit else Letter
  }

  predicate Breaks(c: char) {
    c == '.' || c == '!' || c == '?' || c == '\n' || c == '\r' || c == ';' || c == ':'
  }

  // ---- the fields that are read ------------------------------------------------------------------

  function TrimLeft(a: Alphabet, s: string): string {
    if s != "" && a.isSpace(s[0]) then TrimLeft(a, s[1..]) else s
  }

  function TrimRight(a: Alphabet, s: string): string {
    if s != "" && a.isSpace(s[|s| - 1]) then TrimRight(a, s[..|s| - 1]) else s
  }

  function Trim(a: Alphabet, s: string): string { TrimRight(a, TrimLeft(a, s)) }

  /** The trimmed field, cut to its bound. */
  function Bounded(a: Alphabet, s: string): string {
    var t := Trim(a, s);
    if |t| > MAX_FIELD then t[..MAX_FIELD] else t
  }

  lemma {:induction false} TrimLeftStart(a: Alphabet, s: string)
    ensures TrimLeft(a, s) != "" ==> !a.isSpace(TrimLeft(a, s)[0])
  {
    if s != "" && a.isSpace(s[0]) { TrimLeftStart(a, s[1..]); }
  }

  lemma {:induction false} TrimRightIsPrefix(a: Alphabet, s: string)
    ensures TrimRight(a, s) <= s
  {
    if s != "" && a.isSpace(s[|s| - 1]) { TrimRightIsPrefix(a, s[..|s| - 1]); }
  }

  /** Tokenizing a bounded field trims it again; that removes nothing at its front. */
  lemma BoundedTwiceIsPrefix(a: Alphabet, s: string)
    ensures Bounded(a, Bounded(a, s)) <= Bounded(a, s)
  {
    TrimLeftStart(a, s);
    TrimRightIsPrefix(a, TrimLeft(a, s));
    var t := Bounded(a, s);
    assert t <= TrimLeft(a, s);
    assert TrimLeft(a, t) == t;
    TrimRightIsPrefix(a, t);
  }

  // ---- the tokens of a text ------------------------------------------------------------------

  /** The end of the maximal run of one kind that starts at i. */
  function RunEnd(a: Alphabet, runes: string, i: nat): (e: nat)
    requires i < |runes|
    ensures i < e <= |runes|
    ensures forall k :: i <= k < e ==> ClassOf(a, runes[k]) == ClassOf(a, runes[i])
    ensures e < |runes| ==> ClassOf(a, runes[e]) != ClassOf(a, runes[i])
    decreases |runes| - i
  {
    if i + 1 < |runes| && ClassOf(a, runes[i + 1]) == ClassOf(a, runes[i]) then RunEnd(a, runes, i + 1) else i + 1
  }

  function RunToken(a: Alphabet, runes: string, i: nat, e: nat, breakBefore: bool): seq<Token>
    requires i < e <= |runes|
  {
    if e - i > MAX_TERM then [] else [Token(a.lower(runes[i..e]), runes[i..e], breakBefore, i, e)]
  }

  /** The tokens from position i on; `pending` says that a break was passed since the last run. */
  function Tokenize(a: Alphabet, runes: string, i: nat, pending: bool): seq<Token>
    requires i <= |runes|
    decreases |runes| - i
  {
    if i == |runes| then []
    else if ClassOf(a, runes[i]) == Gap then Tokenize(a, runes, i + 1, pending || Breaks(runes[i]))
    else
      var e := RunEnd(a, runes, i);
      RunToken(a, runes, i, e, pending) + Tokenize(a, runes, e, false)
  }

  function TokensOf(a: Alphabet, value: string): seq<Token> { Tokenize(a, Bounded(a, value), 0, false) }

  predicate TokensFit(a: Alphabet, runes: string, from: nat, tokens: seq<Token>) {
    && (forall k :: 0 <= k < |tokens| ==>
          && from <= tokens[k].start < tokens[k].end <= |runes|
          && tokens[k].end - tokens[k].start <= MAX_TERM
          && tokens[k].original == runes[tokens[k].start..tokens[k].end]
          && tokens[k].value == a.lower(tokens[k].original))
    && (forall k, l :: 0 <= k < l < |tokens| ==> tokens[k].end <= tokens[l].start)
  }

  /** Tokens are non-empty, in bounds, in order and disjoint, and spell the text at their offsets. */
  lemma {:induction false} TokensAreWellFormed(a: Alphabet, runes: string, i: nat, pending: bool)
    requires i <= |runes|
    ensures TokensFit(a, runes, i, Tokenize(a, runes, i, pending))
    decreases |runes| - i
  {
    if i < |runes| {
      if ClassOf(a, runes[i]) == Gap {
        TokensAreWellFormed(a, runes, i + 1, pending || Breaks(runes[i]));
      } else {
        TokensAreWellFormed(a, runes, RunEnd(a, runes, i), false);
      }
    }
  }

  /** A maximal run: it cannot be extended on either side. */
  predicate MaximalRun(a: Alphabet, runes: string, s: nat, e: nat) {
    && s < e <= |runes| && ClassOf(a, runes[s]) != Gap
    && (forall k :: s <= k < e ==> ClassOf(a, runes[k]) == ClassOf(a, runes[s]))
    && (s > 0 ==> ClassOf(a, runes[s - 1]) != ClassOf(a, runes[s]))
    && (e < |runes| ==> ClassOf(a, runes[e]) != ClassOf(a, runes[s]))
  }

  /** Exactly the maximal runs of bounded length become tokens. */
  lemma {:induction false} TokensAreTheMaximalRuns(a: Alphabet, runes: string, i: nat, pending: bool, s: nat, e: nat)
    requires i <= |runes|
    requires 0 < i < |runes| && ClassOf(a, runes[i]) != Gap ==> ClassOf(a, runes[i - 1]) != ClassOf(a, runes[i])
    ensures (exists t <- Tokenize(a, runes, i, pending) :: t.start == s && t.end == e) <==>
            i <= s && MaximalRun(a, runes, s, e) && e - s <= 48
    decreases |runes| - i
  {
    if i == |runes| {
    } else if ClassOf(a, runes[i]) == Gap {
      TokensAreTheMaximalRuns(a, runes, i + 1, pending || Breaks(runes[i]), s, e);
    } else {
      var r := RunEnd(a, runes, i);
      TokensAreTheMaximalRuns(a, runes, r, false, s, e);
      var here, rest := RunToken(a, runes, i, r, pending), Tokenize(a, runes, r, false);
      assert forall t :: t in here + rest <==> t in here || t in rest;
      assert i < s < r ==> !MaximalRun(a, runes, s, e);
      assert s == i && MaximalRun(a, runes, s, e) ==> e == r;
      assert here != [] ==> here[0] in here;
    }
  }

  /** A token holds only numbers, or only letters that are none. */
  lemma TokensAreUniform(a: Alphabet, runes: string, s: nat, e: nat)
    requires MaximalRun(a, runes, s, e)
    ensures (forall k :: s <= k < e ==> a.isNumber(runes[k])) || (forall k :: s <= k < e ==> a.isLetter(runes[k]) && !a.isNumber(runes[k]))
  {
    forall k | s <= k < e ensures a.isNumber(runes[k]) == a.isNumber(runes[s]) && (a.isNumber(runes[k]) || a.isLetter(runes[k])) {
      assert ClassOf(a, runes[k]) == ClassOf(a, runes[s]);
    }
  }

  predicate BreakChar(c: char) { c in ".!?\n\r;:" }

  /** Only gap characters from k up to s, the first of them a break. */
  predicate BreakBetween(a: Alphabet, runes: string, k: nat, s: nat) {
    k < s <= |runes| && BreakChar(runes[k]) && forall j :: k <= j < s ==> ClassOf(a, runes[j]) == Gap
  }

  predicate AllGap(a: Alphabet, runes: string, i: nat, s: nat) { s <= |runes| && forall j :: i <= j < s ==> ClassOf(a, runes[j]) == Gap }

  /** A clause break stands before a token exactly if a break character stands in the gap before it, a run that was too long ending the gap. */
  lemma {:induction false} BreaksAre(a: Alphabet, runes: string, i: nat, pending: bool, t: Token)
    requires i <= |runes| && t in Tokenize(a, runes, i, pending)
    ensures i <= t.start < |runes|
    ensures t.breakBefore <==> (exists k: nat :: i <= k && BreakBetween(a, runes, k, t.start)) || (pending && AllGap(a, runes, i, t.start))
    decreases |runes| - i
  {
    if ClassOf(a, runes[i]) == Gap {
      BreaksAre(a, runes, i + 1, pending || Breaks(runes[i]), t);
      assert Breaks(runes[i]) <==> BreakChar(runes[i]);
      assert AllGap(a, runes, i + 1, t.start) <==> AllGap(a, runes, i, t.start);
      assert BreakBetween(a, runes, i, t.start) <==> BreakChar(runes[i]) && AllGap(a, runes, i + 1, t.start);
    } else {
      var e := RunEnd(a, runes, i);
      if t in RunToken(a, runes, i, e, pending) {
        assert t.start == i && AllGap(a, runes, i, i);
      } else {
        BreaksAre(a, runes, e, false, t);
        assert !AllGap(a, runes, i, t.start);
        forall k: nat | i <= k < e ensures !BreakBetween(a, runes, k, t.start) { assert ClassOf(a, runes[k]) != Gap; }
      }
    }
  }

  lemma {:induction false} TrimLeftIs(a: Alphabet, s: string) returns (k: nat)
    ensures k <= |s| && TrimLeft(a, s) == s[k..] && (forall i :: 0 <= i < k ==> a.isSpace(s[i])) && (k < |s| ==> !a.isSpace(s[k]))
  {
    if s == "" || !a.isSpace(s[0]) {
      k := 0;
    } else {
      var l := TrimLeftIs(a, s[1..]);
      k := l + 1;
      assert forall i :: 0 < i < k ==> s[i] == s[1..][i - 1];
    }
  }

  lemma {:induction false} TrimRightIs(a: Alphabet, s: string) returns (k: nat)
    ensures k <= |s| && TrimRight(a, s) == s[..k] && (forall i :: k <= i < |s| ==> a.isSpace(s[i])) && (k > 0 ==> !a.isSpace(s[k - 1]))
  {
    if s == "" || !a.isSpace(s[|s| - 1]) {
      k := |s|;
      assert s[..k] == s;
    } else {
      k := TrimRightIs(a, s[..|s| - 1]);
    }
  }

  /** A field is read without the blanks around it, and at most 1600 characters of it. */
  lemma BoundedIs(a: Alphabet, s: string) returns (from: nat, to: nat)
    ensures from <= to <= |s| && Trim(a, s) == s[from..to]
    ensures (forall i :: 0 <= i < from ==> a.isSpace(s[i])) && forall i :: to <= i < |s| ==> a.isSpace(s[i])
    ensures from < to ==> !a.isSpace(s[from]) && !a.isSpace(s[to - 1])
    ensures Bounded(a, s) == s[from..if to - from > 1600 then from + 1600 else to]
  {
    from := TrimLeftIs(a, s);
    var k := TrimRightIs(a, s[from..]);
    to := from + k;
  }

  // ---- the scanning loop -------------------------------------------------------------------------

  /** The running variables of the loop; the open run is empty between runs. */
  datatype Scan = Scan(result: seq<Token>, current: string, kind: Class, breakBefore: bool, start: nat, pending: bool)

  predicate OpenRun(a: Alphabet, runes: string, offset: nat, s: Scan) {
    s.current != "" ==>
      && s.start < offset <= |runes| && s.current == runes[s.start..offset] && !s.pending && s.kind != Gap
      && forall k :: s.start <= k < offset ==> ClassOf(a, runes[k]) == s.kind
  }

  /** What is found so far and what the open run and the rest still owe make up all the tokens. */
  predicate ScanInv(a: Alphabet, runes: string, offset: nat, s: Scan) {
    && offset <= |runes| && OpenRun(a, runes, offset, s)
    && Tokenize(a, runes, 0, false) ==
       s.result + (if s.current == "" then Tokenize(a, runes, offset, s.pending) else Tokenize(a, runes, s.start, s.breakBefore))
  }

  /** Closes the open run; an empty or over-long one leaves no token. */
  method Flush(a: Alphabet, runes: string, offset: nat, s: Scan) returns (s': Scan)
    requires ScanInv(a, runes, offset, s)
    requires offset < |runes| && s.current != "" ==> ClassOf(a, runes[offset]) != s.kind
    ensures ScanInv(a, runes, offset, s') && s'.current == "" && s'.pending == s.pending
  {
    s' := s.(current := "");
    if |s.current| == 0 { return; }
    RunEndIs(a, runes, s.start, offset);
    if |s.current| <= MAX_TERM {
      s' := s'.(result := s.result + [Token(a.lower(s.current), s.current, s.breakBefore, s.start, offset)]);
    }
    assert s'.result == s.result + RunToken(a, runes, s.start, offset, s.breakBefore);
    FlushedRun(a, runes, offset, s, s'.result);
  }

  /** A finished run is a token at most, and scanning goes on behind it. */
  lemma FlushedRun(a: Alphabet, runes: string, offset: nat, s: Scan, result: seq<Token>)
    requires s.start < offset <= |runes| && ClassOf(a, runes[s.start]) != Gap && RunEnd(a, runes, s.start) == offset
    requires result == s.result + RunToken(a, runes, s.start, offset, s.breakBefore)
    ensures s.result + Tokenize(a, runes, s.start, s.breakBefore) == result + Tokenize(a, runes, offset, false)
  {
  }

  /** Consumes one character that continues or opens a run, or separates runs. */
  method Consume(a: Alphabet, runes: string, offset: nat, s: Scan) returns (s': Scan)
    requires ScanInv(a, runes, offset, s) && offset < |runes|
    requires s.current != "" ==> ClassOf(a, runes[offset]) == s.kind
    ensures ScanInv(a, runes, offset + 1, s')
  {
    var c := runes[offset];
    s' := s;
    if ClassOf(a, c) == Gap {
      if Breaks(c) { s' := s'.(pending := true); }
      return;
    }
    if s.current == "" {
      s' := s'.(start := offset, kind := ClassOf(a, c), breakBefore := s.pending, pending := false);
    }
    s' := s'.(current := s.current + [c]);
  }

  /** One character at a time, the loop finds the tokens. */
  method RelatedTokens(a: Alphabet, value: string) returns (result: seq<Token>)
    ensures result == TokensOf(a, value)
  {
    var runes := Bounded(a, value);
    var s := Scan([], "", Gap, false, 0, false);
    for offset := 0 to |runes|
      invariant ScanInv(a, runes, offset, s)
    {
      if s.current != "" && ClassOf(a, runes[offset]) != s.kind { s := Flush(a, runes, offset, s); }
      s := Consume(a, runes, offset, s);
    }
    s := Flush(a, runes, |runes|, s);
    result := s.result;
  }

  lemma RunEndIs(a: Alphabet, runes: string, i: nat, e: nat)
    requires i < e <= |runes|
    requires forall k :: i <= k < e ==> ClassOf(a, runes[k]) == ClassOf(a, runes[i])
    requires e < |runes| ==> ClassOf(a, runes[e]) != ClassOf(a, runes[i])
    ensures RunEnd(a, runes, i) == e
  {
    var r := RunEnd(a, runes, i);
    assert !(r < e) && !(e < r);
  }
}
