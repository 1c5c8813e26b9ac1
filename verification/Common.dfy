/** Small value types and the counting lemmas that several protocol models share. */
module Common {
  datatype Option<+T> = None | Some(value: T)

  function TrimPrefix(s: string, prefix: string): string {
    if prefix <= s then s[|prefix|..] else s
  }

  /** How many elements of s satisfy p. */
  function Count<T>(s: seq<T>, p: T -> bool): nat {
    if s == [] then 0 else (if p(s[0]) then 1 else 0) + Count(s[1..], p)
  }

  lemma {:induction false} CountAppend<T>(s: seq<T>, x: T, p: T -> bool)
    ensures Count(s + [x], p) == Count(s, p) + (if p(x) then 1 else 0)
  {
    if s == [] {
      assert s + [x] == [x];
    } else {
      assert (s + [x])[1..] == s[1..] + [x];
      CountAppend(s[1..], x, p);
    }
  }

  lemma {:induction false} CountUpdate<T>(s: seq<T>, i: nat, x: T, p: T -> bool)
    requires i < |s|
    ensures Count(s[i := x], p) + (if p(s[i]) then 1 else 0) == Count(s, p) + (if p(x) then 1 else 0)
  {
    if i == 0 {
      assert s[i := x][1..] == s[1..];
    } else {
      assert s[i := x][1..] == s[1..][i - 1 := x];
      CountUpdate(s[1..], i - 1, x, p);
    }
  }

  lemma {:induction false} CountZero<T>(s: seq<T>, p: T -> bool)
    ensures Count(s, p) == 0 <==> forall i :: 0 <= i < |s| ==> !p(s[i])
  {
    if s == [] {
    } else {
      CountZero(s[1..], p);
      assert forall i :: 0 < i < |s| ==> s[i] == s[1..][i - 1];
    }
  }

  /** Two predicates that agree on every element count alike; a disjoint union counts their sum. */
  lemma {:induction false} CountSum<T>(s: seq<T>, p: T -> bool, q: T -> bool, r: T -> bool)
    requires forall x <- s :: p(x) <==> q(x) || r(x)
    requires forall x <- s :: !(q(x) && r(x))
    ensures Count(s, p) == Count(s, q) + Count(s, r)
  {
    if s == [] {
    } else {
      assert s[0] in s;
      assert forall x <- s[1..] :: x in s;
      CountSum(s[1..], p, q, r);
    }
  }
}
