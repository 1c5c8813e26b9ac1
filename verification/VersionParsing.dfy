/** Reading versions back: every well-formed version text parses to what it spells. */
module VersionParsing {
  import opened Common
  import opened Versions

  predicate Free(s: string, separator: char) { forall i :: 0 <= i < |s| ==> s[i] != separator }

  predicate NoSpace(s: string) { forall i :: 0 <= i < |s| ==> !IsSpace(s[i]) }

  function JoinDots(parts: seq<string>): string {
    if parts == [] then "" else if |parts| == 1 then parts[0] else parts[0] + ("." + JoinDots(parts[1..]))
  }

  lemma {:induction false} CutAtSeparator(a: string, separator: char, b: string)
    requires Free(a, separator)
    ensures Cut(a + ([separator] + b), separator) == (a, b, true)
    ensures Cut(a, separator) == (a, "", false)
  {
    if a == "" {
      assert (a + ([separator] + b))[1..] == b;
    } else {
      assert (a + ([separator] + b))[1..] == a[1..] + ([separator] + b);
      assert [a[0]] + a[1..] == a;
      CutAtSeparator(a[1..], separator, b);
    }
  }

  lemma {:induction false} SplitJoined(parts: seq<string>)
    requires parts != [] && forall p <- parts :: Free(p, '.')
    ensures SplitDots(JoinDots(parts)) == parts
  {
    assert parts[0] in parts;
    if |parts| == 1 {
      CutAtSeparator(parts[0], '.', "");
    } else {
      assert forall p <- parts[1..] :: p in parts;
      CutAtSeparator(parts[0], '.', JoinDots(parts[1..]));
      SplitJoined(parts[1..]);
    }
  }

  lemma {:induction false} JoinedChars(parts: seq<string>, c: char)
    requires c != '.' && forall p <- parts :: Free(p, c)
    ensures Free(JoinDots(parts), c)
  {
    if |parts| == 1 {
      assert parts[0] in parts;
    } else if |parts| > 1 {
      assert parts[0] in parts;
      assert forall p <- parts[1..] :: p in parts;
      JoinedChars(parts[1..], c);
    }
  }

  lemma {:induction false} LastWordOf(prefix: string, text: string)
    requires NoSpace(text) && (prefix == "" || IsSpace(prefix[|prefix| - 1]))
    ensures LastWord(prefix + text) == text
  {
    var all := prefix + text;
    if text == "" {
      assert all == prefix;
    } else {
      assert all[..|all| - 1] == prefix + text[..|text| - 1];
      LastWordOf(prefix, text[..|text| - 1]);
    }
  }

  lemma {:induction false} TrailingSpaceGoes(text: string, spaces: string)
    requires text != "" && NoSpace(text) && forall i :: 0 <= i < |spaces| ==> IsSpace(spaces[i])
    ensures forall prefix: string :: DropTrailingSpace(prefix + text + spaces) == prefix + text
  {
    forall prefix: string ensures DropTrailingSpace(prefix + text + spaces) == prefix + text {
      var all := prefix + text + spaces;
      if spaces == "" {
        assert all == prefix + text;
      } else {
        assert all[..|all| - 1] == prefix + text + spaces[..|spaces| - 1];
        TrailingSpaceGoes(text, spaces[..|spaces| - 1]);
      }
    }
  }

  // ---- well-formed versions ----------------------------------------------------------------------

  /** A version as it is written: three decimal parts, then an optional prerelease and build. */
  datatype Spelling = Spelling(v: bool, core: seq<string>, prerelease: seq<string>, build: Option<string>)

  predicate Fits(s: string)
    requires Digits(s)
  {
    Decimal(s) < 0x8000_0000_0000_0000
  }

  predicate Identifier(s: string) { s != "" && NoSpace(s) && Free(s, '.') && Free(s, '+') }

  predicate WellSpelled(x: Spelling) {
    && |x.core| == 3 && (forall p <- x.core :: Digits(p))
    && (forall p <- x.prerelease :: Identifier(p))
    && (x.build.Some? ==> NoSpace(x.build.value))
  }

  function Token(x: Spelling): string {
    JoinDots(x.core) + if x.prerelease == [] then "" else "-" + JoinDots(x.prerelease)
  }

  function Text(x: Spelling): string {
    (if x.v then "v" else "") + (Token(x) + if x.build.None? then "" else "+" + x.build.value)
  }

  lemma DigitChars(s: string)
    requires Digits(s)
    ensures NoSpace(s) && Free(s, '.') && Free(s, '-') && Free(s, '+') && s[0] != 'v'
    ensures Atoi(s) == if Fits(s) then Some(Decimal(s)) else None
  {
  }

  lemma {:induction false} JoinedNoSpace(parts: seq<string>)
    requires forall p <- parts :: NoSpace(p)
    ensures NoSpace(JoinDots(parts))
  {
    if |parts| == 1 {
      assert parts[0] in parts;
    } else if |parts| > 1 {
      assert parts[0] in parts;
      assert forall p <- parts[1..] :: p in parts;
      JoinedNoSpace(parts[1..]);
    }
  }

  lemma CoreChars(x: Spelling)
    requires WellSpelled(x)
    ensures Free(JoinDots(x.core), '-') && Free(JoinDots(x.core), '+') && NoSpace(JoinDots(x.core))
    ensures JoinDots(x.core) != "" && JoinDots(x.core)[0] != 'v'
    ensures SplitDots(JoinDots(x.core)) == x.core
  {
    forall p <- x.core ensures NoSpace(p) && Free(p, '.') && Free(p, '-') && Free(p, '+') && p[0] != 'v' { DigitChars(p); }
    JoinedChars(x.core, '-');
    JoinedChars(x.core, '+');
    JoinedNoSpace(x.core);
    SplitJoined(x.core);
    assert x.core[0] in x.core && JoinDots(x.core)[0] == x.core[0][0];
  }

  lemma TokenChars(x: Spelling)
    requires WellSpelled(x)
    ensures Free(Token(x), '+') && NoSpace(Token(x)) && Token(x) != "" && Token(x)[0] != 'v'
  {
    CoreChars(x);
    JoinedChars(x.prerelease, '+');
    JoinedNoSpace(x.prerelease);
    assert NoSpace("-");
  }

  /** The numbers the parts spell. */
  function Numbers(core: seq<string>): seq<nat>
    requires forall p <- core :: Digits(p)
  {
    if core == [] then [] else assert Digits(core[0]); [Decimal(core[0])] + Numbers(core[1..])
  }

  predicate AllFit(core: seq<string>)
    requires forall p <- core :: Digits(p)
  {
    forall p <- core :: Fits(p)
  }

  lemma {:induction false} CoreReadsBack(core: seq<string>)
    requires forall p <- core :: Digits(p)
    ensures ParseCore(core) == if AllFit(core) then Some(Numbers(core)) else None
  {
    if core == [] {
      assert ParseCore(core) == Some([]);
    } else {
      var head, tail := core[0], core[1..];
      assert core == [head] + tail;
      assert forall p <- tail :: p in core;
      CoreReadsBack(tail);
      DigitChars(head);
      assert AllFit(core) <==> Fits(head) && AllFit(tail);
    }
  }

  lemma TokenReadsBack(x: Spelling)
    requires WellSpelled(x)
    ensures Cut(Token(x), '-') == (JoinDots(x.core), JoinDots(x.prerelease), x.prerelease != [])
    ensures x.prerelease != [] ==> JoinDots(x.prerelease) != "" && SplitDots(JoinDots(x.prerelease)) == x.prerelease
  {
    CoreChars(x);
    CutAtSeparator(JoinDots(x.core), '-', JoinDots(x.prerelease));
    if x.prerelease != [] {
      assert x.prerelease[0] in x.prerelease;
      SplitJoined(x.prerelease);
    } else {
      assert Token(x) == JoinDots(x.core);
    }
  }

  lemma TextReadsBack(x: Spelling)
    requires WellSpelled(x)
    ensures Text(x) != "" && NoSpace(Text(x)) && (Text(x)[0] == 'v' <==> x.v)
    ensures Cut(if x.v then Text(x)[1..] else Text(x), '+').0 == Token(x)
  {
    TokenChars(x);
    var rest := Token(x) + if x.build.None? then "" else "+" + x.build.value;
    assert (if x.v then Text(x)[1..] else Text(x)) == rest;
    CutAtSeparator(Token(x), '+', if x.build.Some? then x.build.value else "");
    assert x.build.None? ==> rest == Token(x);
  }

  /**
   Whatever words come before it and white space after it, a well-formed version is read as it is
   spelled and its build is ignored; exactly a part of the core beyond 63 bits makes it invalid.
   */
  lemma ParseReadsBack(prefix: string, x: Spelling, spaces: string)
    requires WellSpelled(x)
    requires prefix == "" || IsSpace(prefix[|prefix| - 1])
    requires forall i :: 0 <= i < |spaces| ==> IsSpace(spaces[i])
    ensures Parse(prefix + Text(x) + spaces) == if AllFit(x.core) then Valid(Numbers(x.core), x.prerelease) else Invalid
  {
    TextReadsBack(x);
    TrailingSpaceGoes(Text(x), spaces);
    LastWordOf(prefix, Text(x));
    assert LastField(prefix + Text(x) + spaces) == Text(x);
    TokenReadsBack(x);
    CoreChars(x);
    CoreReadsBack(x.core);
  }

  /** A hyphen with nothing behind it makes a version invalid. */
  lemma EmptyPrereleaseIsInvalid(prefix: string, core: seq<string>)
    requires |core| == 3 && forall p <- core :: Digits(p)
    requires prefix == "" || IsSpace(prefix[|prefix| - 1])
    ensures Parse(prefix + (JoinDots(core) + "-")) == Invalid
  {
    var x := Spelling(false, core, [], None);
    var text := JoinDots(core) + "-";
    CoreChars(x);
    assert NoSpace("-") && NoSpace(text) && Free(text, '+');
    LastWordOf(prefix, text);
    TrailingSpaceGoes(text, "");
    assert prefix + text + "" == prefix + text;
    assert LastField(prefix + text) == text;
    CutAtSeparator(text, '+', "");
    CutAtSeparator(JoinDots(core), '-', "");
    assert text == JoinDots(core) + (['-'] + "");
  }

  /** Another number of parts, or a part of the core that is no number, makes it invalid too. */
  lemma MalformedCoreIsInvalid(core: seq<string>)
    requires core != [] && forall p <- core :: NoSpace(p) && Free(p, '.') && Free(p, '-') && Free(p, '+')
    requires JoinDots(core) != "" && JoinDots(core)[0] != 'v'
    requires |core| != 3 || exists p <- core :: !Digits(p)
    ensures Parse(JoinDots(core)) == Invalid
  {
    var text := JoinDots(core);
    JoinedChars(core, '-');
    JoinedChars(core, '+');
    JoinedNoSpace(core);
    SplitJoined(core);
    LastWordOf("", text);
    TrailingSpaceGoes(text, "");
    assert "" + text + "" == text && "" + text == text;
    CutAtSeparator(text, '+', "");
    CutAtSeparator(text, '-', "");
    if |core| == 3 {
      var p :| p in core && !Digits(p);
      NoNumberNoCore(core, p);
    }
  }

  lemma {:induction false} NoNumberNoCore(core: seq<string>, p: string)
    requires p in core && !Digits(p) && Free(p, '-') && Free(p, '+')
    ensures ParseCore(core).None?
  {
    if core[0] == p {
      assert Atoi(p).None? by { assert p != "" ==> p[0] != '-' && p[0] != '+'; }
    } else {
      NoNumberNoCore(core[1..], p);
    }
  }

  /** Blanks, tabs and line ends separate words; what versions are spelled with does not. */
  lemma SpacesAre(c: char)
    ensures c in " \t\n\r" ==> IsSpace(c)
    ensures '0' <= c <= '9' || 'a' <= c <= 'z' || 'A' <= c <= 'Z' || c in ".-+_" ==> !IsSpace(c)
  {
  }
}
