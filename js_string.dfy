/** The two ECMAScript string built-ins the news route relies on:
    `String.prototype.trim` (ECMA-262, section 22.1.3.32, via the abstract operation
    TrimString) and `String.prototype.startsWith` with the default position 0
    (ECMA-262, section 22.1.3.24). Strings are sequences of characters. */
module JsString {

  /** White space for TrimString: the union of the WhiteSpace code points
      (TAB, VT, FF, ZWNBSP and every "Zs" space separator) and the
      LineTerminator code points (LF, CR, LS, PS). All of them lie in the
      Basic Multilingual Plane, so each is one UTF-16 code unit and trimming
      code points agrees with trimming code units. */
  predicate IsWhiteSpace(c: char): (r: bool)
    ensures r ==> c <= '\U{FEFF}'
  {
    // WhiteSpace: <TAB> <VT> <FF> <ZWNBSP>
    c == '\U{0009}' || c == '\U{000B}' || c == '\U{000C}' || c == '\U{FEFF}' ||
    // WhiteSpace: <USP>, the Unicode "Zs" category
    c == '\U{0020}' || c == '\U{00A0}' || c == '\U{1680}' ||
    ('\U{2000}' <= c <= '\U{200A}') || c == '\U{202F}' || c == '\U{205F}' || c == '\U{3000}' ||
    // LineTerminator: <LF> <CR> <LS> <PS>
    c == '\U{000A}' || c == '\U{000D}' || c == '\U{2028}' || c == '\U{2029}'
  }

  /** Every character of `s` is white space. */
  predicate AllWhiteSpace(s: string)
  {
    forall i :: 0 <= i < |s| ==> IsWhiteSpace(s[i])
  }

  /** Neither end of `s` is white space (vacuously true of the empty string). */
  predicate Clean(s: string)
  {
    s == [] || (!IsWhiteSpace(s[0]) && !IsWhiteSpace(s[|s| - 1]))
  }

  /** `s` without its leading white space: no longer than `s`, and not
      starting with white space (TrimStartCuts: it is the suffix of `s` left
      after cutting off white space only). */
  function TrimStart(s: string): (r: string)
    ensures |r| <= |s|
    ensures r == [] || !IsWhiteSpace(r[0])
  {
    if s != [] && IsWhiteSpace(s[0]) then TrimStart(s[1..]) else s
  }

  /** `s` without its trailing white space: no longer than `s`, and not
      ending with white space (TrimEndCuts: it is the prefix of `s` left
      after cutting off white space only). */
  function TrimEnd(s: string): (r: string)
    ensures |r| <= |s|
    ensures r == [] || !IsWhiteSpace(r[|r| - 1])
  {
    if s != [] && IsWhiteSpace(s[|s| - 1]) then TrimEnd(s[..|s| - 1]) else s
  }

  /** TrimStart keeps a suffix of its input and cuts off white space only. */
  lemma {:induction false} TrimStartCuts(s: string)
    ensures var k := |s| - |TrimStart(s)|;
            TrimStart(s) == s[k..] && AllWhiteSpace(s[..k])
  {
    if s != [] && IsWhiteSpace(s[0]) {
      TrimStartCuts(s[1..]);
      var k := |s| - |TrimStart(s)|;
      assert s[1..][k - 1..] == s[k..];
      forall i | 0 <= i < k ensures IsWhiteSpace(s[..k][i]) {
        if i > 0 {
          assert s[..k][i] == s[1..][..k - 1][i - 1];
        }
      }
    }
  }

  /** TrimEnd keeps a prefix of its input and cuts off white space only. */
  lemma {:induction false} TrimEndCuts(s: string)
    ensures var k := |TrimEnd(s)|;
            TrimEnd(s) == s[..k] && AllWhiteSpace(s[k..])
  {
    if s != [] && IsWhiteSpace(s[|s| - 1]) {
      var t := s[..|s| - 1];
      TrimEndCuts(t);
      var k := |TrimEnd(s)|;
      assert t[..k] == s[..k];
      forall i | 0 <= i < |s| - k ensures IsWhiteSpace(s[k..][i]) {
        if k + i < |s| - 1 {
          assert s[k..][i] == t[k..][i];
        }
      }
    }
  }

  /** `String.prototype.trim`: `s` with both leading and trailing white space
      removed. Its ends are not white space; TrimIsSlice, TrimCutsWhiteSpace and
      TrimEmptyIff say what it keeps of `s`. */
  function Trim(s: string): (r: string)
    ensures |r| <= |s| && Clean(r)
  {
    TrimEndCuts(TrimStart(s));
    TrimEnd(TrimStart(s))
  }

  /** Trim keeps one contiguous slice of its input, starting after the
      leading white space. */
  lemma TrimIsSlice(s: string)
    ensures var lead := |s| - |TrimStart(s)|;
            lead + |Trim(s)| <= |s| && Trim(s) == s[lead..lead + |Trim(s)|]
  {
    var t := TrimStart(s);
    var r := TrimEnd(t);
    var lead := |s| - |t|;
    TrimStartCuts(s);
    TrimEndCuts(t);
    assert t == s[lead..] && r == t[..|r|];
    assert s[lead..][..|r|] == s[lead..lead + |r|];
  }

  /** What trim cuts off on either side is white space. */
  lemma TrimCutsWhiteSpace(s: string)
    ensures var lead := |s| - |TrimStart(s)|;
            lead + |Trim(s)| <= |s| &&
            AllWhiteSpace(s[..lead]) && AllWhiteSpace(s[lead + |Trim(s)|..])
  {
    var t := TrimStart(s);
    var r := TrimEnd(t);
    var lead := |s| - |t|;
    TrimStartCuts(s);
    TrimEndCuts(t);
    assert s[lead + |r|..] == t[|r|..];
  }

  /** Trim leaves nothing exactly when its input is all white space. */
  lemma TrimEmptyIff(s: string)
    ensures Trim(s) == [] <==> AllWhiteSpace(s)
  {
    var t := TrimStart(s);
    var r := TrimEnd(t);
    var lead := |s| - |t|;
    if r == [] {
      TrimStartCuts(s);
      TrimEndCuts(t);
      assert t[|r|..] == t;
      assert s[lead..] == t;
      AllWhiteSpaceJoin(s, lead);
    } else {
      TrimStartCuts(s);
      assert s[lead] == t[0];
      assert !IsWhiteSpace(s[lead]);
    }
  }

  /** A string whose two halves around `k` are white space is white space. */
  lemma AllWhiteSpaceJoin(s: string, k: nat)
    requires k <= |s|
    requires AllWhiteSpace(s[..k]) && AllWhiteSpace(s[k..])
    ensures AllWhiteSpace(s)
  {
    forall i | 0 <= i < |s| ensures IsWhiteSpace(s[i]) {
      if i < k {
        assert s[i] == s[..k][i];
      } else {
        assert s[i] == s[k..][i - k];
      }
    }
  }

  /** A string whose ends are not white space is left unchanged by trim. */
  lemma TrimClean(s: string)
    requires Clean(s)
    ensures Trim(s) == s
  {
  }

  /** Trimming twice is trimming once. */
  lemma TrimIdempotent(s: string)
    ensures Trim(Trim(s)) == Trim(s)
  {
    TrimClean(Trim(s));
  }

  /** `String.prototype.startsWith(prefix)` with the default position 0: `s`
      is at least as long as `prefix` and its first `|prefix|` characters
      are `prefix`. A literal prefix test, not a URL-scheme test: it holds
      exactly when `prefix` matches `s` character by character. */
  predicate StartsWith(s: string, prefix: string): (r: bool)
    ensures r <==> |prefix| <= |s| && forall i :: 0 <= i < |prefix| ==> s[i] == prefix[i]
  {
    |prefix| <= |s| && s[..|prefix|] == prefix
  }

  /** The route's test `startsWith('http')` looks at the first four
      characters only, and is case-sensitive: "HTTP://..." fails it and
      "http-guide.html" passes it. */
  lemma HttpPrefixIff(s: string)
    ensures StartsWith(s, "http") <==>
            |s| >= 4 && s[0] == 'h' && s[1] == 't' && s[2] == 't' && s[3] == 'p'
  {
  }
}
