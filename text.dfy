/** String primitives the updater relies on: counting a character, finding a
    substring, replacing every '@' by "%40", and the cut that replacing CR and
    LF by NUL performs on a C string. */
module Text {

  /** Number of occurrences of `c` in `s` (tString::CountChar). */
  function CountChar(s: string, c: char): (n: nat)
    ensures n <= |s|
  {
    if s == [] then 0 else (if s[0] == c then 1 else 0) + CountChar(s[1..], c)
  }

  /** The count is zero exactly when the character does not occur. */
  lemma {:induction false} CountCharZero(s: string, c: char)
    ensures CountChar(s, c) == 0 <==> c !in s
  {
    if s != [] {
      CountCharZero(s[1..], c);
      assert s == [s[0]] + s[1..];
    }
  }

  /** The count is the character's multiplicity in the string. */
  lemma {:induction false} CountCharMultiplicity(s: string, c: char)
    ensures CountChar(s, c) == multiset(s)[c]
  {
    if s != [] {
      CountCharMultiplicity(s[1..], c);
      assert s == [s[0]] + s[1..];
    }
  }

  /** `pat` occurs in `s` starting at position `i`. */
  predicate MatchesAt(s: string, pat: string, i: nat) {
    i + |pat| <= |s| && s[i..i + |pat|] == pat
  }

  ghost predicate Contains(s: string, pat: string) {
    exists i: nat :: MatchesAt(s, pat, i)
  }

  /** First position at or after `from` where `pat` occurs, or -1. */
  function FindFrom(s: string, pat: string, from: nat): (r: int)
    ensures r == -1 || from <= r
    decreases |s| - from
  {
    if from + |pat| > |s| then -1
    else if s[from..from + |pat|] == pat then from
    else FindFrom(s, pat, from + 1)
  }

  lemma {:induction false} FindFromSpec(s: string, pat: string, from: nat)
    ensures FindFrom(s, pat, from) != -1 ==> MatchesAt(s, pat, FindFrom(s, pat, from))
    ensures FindFrom(s, pat, from) == -1 ==> forall j: nat :: from <= j ==> !MatchesAt(s, pat, j)
    ensures FindFrom(s, pat, from) != -1 ==> forall j: nat :: from <= j < FindFrom(s, pat, from) ==> !MatchesAt(s, pat, j)
    decreases |s| - from
  {
    if from + |pat| <= |s| && s[from..from + |pat|] != pat {
      FindFromSpec(s, pat, from + 1);
    }
  }

  /** tString::FindString: index of the first occurrence of `pat`, -1 when
      there is none. */
  function FindString(s: string, pat: string): (r: int)
    ensures r >= -1
  {
    FindFrom(s, pat, 0)
  }

  /** FindString finds the first occurrence, and -1 means there is none. */
  lemma FindStringSpec(s: string, pat: string)
    ensures FindString(s, pat) == -1 <==> !Contains(s, pat)
    ensures FindString(s, pat) != -1 ==> MatchesAt(s, pat, FindString(s, pat))
    ensures FindString(s, pat) != -1 ==> forall j: nat :: j < FindString(s, pat) ==> !MatchesAt(s, pat, j)
  {
    FindFromSpec(s, pat, 0);
  }

  /** In `a + [c] + b` with no `c` in `a`, the first `c` is the one after `a`. */
  lemma FindFirstSeparator(a: string, c: char, b: string)
    requires c !in a
    ensures FindString(a + [c] + b, [c]) == |a|
  {
    var s := a + [c] + b;
    FindStringSpec(s, [c]);
    assert s[|a|..|a| + 1] == [c];
    assert MatchesAt(s, [c], |a|);
    forall j: nat | j < |a| ensures !MatchesAt(s, [c], j) {
      assert s[j] == a[j] != c;
      assert s[j..j + 1] == [s[j]];
    }
  }

  /** tString::Replace("@", "%40"): every '@' becomes the three characters "%40". */
  function EscapeAt(s: string): (r: string)
    ensures |r| >= |s|
  {
    if s == [] then ""
    else (if s[0] == '@' then "%40" else [s[0]]) + EscapeAt(s[1..])
  }

  /** No '@' is left, and text without one is unchanged. */
  lemma {:induction false} EscapeAtSpec(s: string)
    ensures '@' !in EscapeAt(s)
    ensures '@' !in s ==> EscapeAt(s) == s
  {
    if s != [] {
      EscapeAtSpec(s[1..]);
      assert s == [s[0]] + s[1..];
    }
  }

  /** Each '@' grows the text by two characters. */
  lemma {:induction false} EscapeAtLength(s: string)
    ensures |EscapeAt(s)| == |s| + 2 * CountChar(s, '@')
  {
    if s != [] {
      EscapeAtLength(s[1..]);
    }
  }

  /** Percent-decoding of "%40" back to '@', as the receiving side of the
      request reads the credentials. */
  function UnescapeAt(s: string): string {
    if |s| >= 3 && s[..3] == "%40" then "@" + UnescapeAt(s[3..])
    else if s == [] then ""
    else [s[0]] + UnescapeAt(s[1..])
  }

  lemma UnescapeEncodedAt(rest: string)
    ensures UnescapeAt("%40" + rest) == "@" + UnescapeAt(rest)
  {
    assert ("%40" + rest)[..3] == "%40";
    assert ("%40" + rest)[3..] == rest;
  }

  lemma UnescapePlain(c: char, rest: string)
    requires c != '%'
    ensures UnescapeAt([c] + rest) == [c] + UnescapeAt(rest)
  {
    var t := [c] + rest;
    assert t[0] == c;
    assert |t| >= 3 ==> t[..3][0] == c;
    assert t[1..] == rest;
  }

  /** Escaping is undone by decoding for credentials without '%'. */
  lemma {:induction false} UnescapeEscapeAt(s: string)
    requires '%' !in s
    ensures UnescapeAt(EscapeAt(s)) == s
  {
    if s != [] {
      assert '%' !in s[1..];
      UnescapeEscapeAt(s[1..]);
      if s[0] == '@' {
        UnescapeEncodedAt(EscapeAt(s[1..]));
      } else {
        UnescapePlain(s[0], EscapeAt(s[1..]));
      }
      assert s == [s[0]] + s[1..];
    }
  }

  /** The escaping is not injective: a literal "%40" and an '@' look the same
      once escaped. */
  lemma EscapeAtNotInjective()
    ensures EscapeAt("@") == EscapeAt("%40") && "@" != "%40"
  {
  }

  /** Replacing '\n' and then '\r' by NUL leaves, read as a C string, the
      text up to the first CR or LF. */
  function CutAtLineEnd(s: string): (r: string)
    ensures |r| <= |s|
  {
    if s == [] || s[0] == '\n' || s[0] == '\r' then ""
    else [s[0]] + CutAtLineEnd(s[1..])
  }

  /** The cut is a prefix without line ends that stops at the first one. */
  lemma {:induction false} CutAtLineEndSpec(s: string)
    ensures CutAtLineEnd(s) <= s
    ensures '\n' !in CutAtLineEnd(s) && '\r' !in CutAtLineEnd(s)
    ensures |CutAtLineEnd(s)| < |s| ==> s[|CutAtLineEnd(s)|] == '\n' || s[|CutAtLineEnd(s)|] == '\r'
  {
    if s != [] && s[0] != '\n' && s[0] != '\r' {
      CutAtLineEndSpec(s[1..]);
    }
  }

  /** Text without line ends is left as it is. */
  lemma {:induction false} CutAtLineEndOfSingleLine(s: string)
    requires '\n' !in s && '\r' !in s
    ensures CutAtLineEnd(s) == s
  {
    if s != [] {
      assert s == [s[0]] + s[1..];
      CutAtLineEndOfSingleLine(s[1..]);
    }
  }

  /** Everything after the first line end is dropped. */
  lemma {:induction false} CutAtLineEndDropsRest(line: string, lineEnd: char, rest: string)
    requires '\n' !in line && '\r' !in line
    requires lineEnd == '\n' || lineEnd == '\r'
    ensures CutAtLineEnd(line + [lineEnd] + rest) == line
  {
    var s := line + [lineEnd] + rest;
    if line == [] {
      assert s[0] == lineEnd;
    } else {
      assert s[0] == line[0];
      assert s[1..] == line[1..] + [lineEnd] + rest;
      CutAtLineEndDropsRest(line[1..], lineEnd, rest);
      assert line == [line[0]] + line[1..];
    }
  }
}
