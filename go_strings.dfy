/**
 * The few functions of Go's `strings` package that the chat server relies on,
 * stated over Dafny strings (sequences of Unicode scalar values):
 * `strings.TrimSpace`, `strings.ToLower` and `strings.ReplaceAll`.
 */
module GoStrings {

  /** unicode.IsSpace: the Latin-1 spaces plus the other White_Space runes. */
  predicate IsSpace(c: char) {
    || c == '\t' || c == '\n' || c == '\U{0B}' || c == '\U{0C}' || c == '\r' || c == ' '
    || c == '\U{85}' || c == '\U{A0}' || c == '\U{1680}'
    || ('\U{2000}' <= c <= '\U{200A}')
    || c == '\U{2028}' || c == '\U{2029}' || c == '\U{202F}' || c == '\U{205F}' || c == '\U{3000}'
  }

  /** Reference notion of a blank line: every rune is white space. */
  ghost predicate IsBlank(s: string) {
    forall i :: 0 <= i < |s| ==> IsSpace(s[i])
  }

  /** Drops the leading white space. */
  function TrimLeftSpace(s: string): (r: string)
    ensures |r| <= |s| && r == s[|s| - |r|..]
    ensures forall i :: 0 <= i < |s| - |r| ==> IsSpace(s[i])
    ensures r != [] ==> !IsSpace(r[0])
  {
    if |s| > 0 && IsSpace(s[0]) then TrimLeftSpace(s[1..]) else s
  }

  /** Drops the trailing white space. */
  function TrimRightSpace(s: string): (r: string)
    ensures |r| <= |s| && r == s[..|r|]
    ensures forall i :: |r| <= i < |s| ==> IsSpace(s[i])
    ensures r != [] ==> !IsSpace(r[|r| - 1])
  {
    if |s| > 0 && IsSpace(s[|s| - 1]) then TrimRightSpace(s[..|s| - 1]) else s
  }

  /** strings.TrimSpace: the slice of `s` between its leading and trailing white space. */
  function TrimSpace(s: string): (r: string)
    ensures |r| <= |s|
    ensures r != [] ==> !IsSpace(r[0]) && !IsSpace(r[|r| - 1])
  {
    TrimRightSpace(TrimLeftSpace(s))
  }

  /** `strings.TrimSpace(s) == ""` holds exactly for the blank lines. */
  lemma TrimSpaceEmptyIffBlank(s: string)
    ensures TrimSpace(s) == "" <==> IsBlank(s)
  {
  }

  /**
   * unicode.ToLower for every rune whose lower case is an ASCII character:
   * the letters A-Z, U+0130 (capital I with dot above, lower-cased to 'i')
   * and U+212A (Kelvin sign, lower-cased to 'k'). Every other rune is kept.
   */
  function LowerRune(c: char): char {
    if 'A' <= c <= 'Z' then (c as int + 32) as char
    else if c == '\U{130}' then 'i'
    else if c == '\U{212A}' then 'k'
    else c
  }

  /** strings.ToLower, rune by rune. */
  function ToLower(s: string): (r: string)
    ensures |r| == |s|
    ensures forall i :: 0 <= i < |s| ==> r[i] == LowerRune(s[i])
  {
    if s == [] then [] else [LowerRune(s[0])] + ToLower(s[1..])
  }

  /** The runes whose lower case is the ASCII character `a`. */
  lemma LowerRuneIs(c: char, a: char)
    requires a == '/' || a == 'q' || a == 'u' || a == 'i' || a == 't'
    ensures LowerRune(c) == a <==>
      c == a || (a != '/' && c == (a as int - 32) as char) || (a == 'i' && c == '\U{130}')
  {
  }

  /** `s` starts with `pat`. */
  predicate StartsWith(s: string, pat: string) {
    |pat| <= |s| && s[..|pat|] == pat
  }

  /**
   * strings.ReplaceAll for a non-empty pattern: scans left to right and
   * replaces every non-overlapping occurrence of `pat` by `rep`.
   */
  function ReplaceAll(s: string, pat: string, rep: string): string
    requires pat != []
    decreases |s|
  {
    if |s| < |pat| then s
    else if s[..|pat|] == pat then rep + ReplaceAll(s[|pat|..], pat, rep)
    else [s[0]] + ReplaceAll(s[1..], pat, rep)
  }

  /** A leading occurrence of the pattern is replaced and scanning resumes after it. */
  lemma ReplaceAllLeading(pat: string, rest: string, rep: string)
    requires pat != []
    ensures ReplaceAll(pat + rest, pat, rep) == rep + ReplaceAll(rest, pat, rep)
  {
    assert (pat + rest)[..|pat|] == pat;
    assert (pat + rest)[|pat|..] == rest;
  }

  /**
   * No occurrence of the (at least two-rune) pattern can begin inside `u`:
   * `u` never has `pat[0]` followed by `pat[1]` and does not end with `pat[0]`.
   */
  predicate NoMatchStart(u: string, pat: string) {
    && |pat| >= 2
    && (forall i :: 0 <= i < |u| - 1 ==> u[i] != pat[0] || u[i + 1] != pat[1])
    && (u != [] ==> u[|u| - 1] != pat[0])
  }

  /** A stretch where no occurrence can begin is copied unchanged and the scan resumes after it. */
  lemma {:induction false} ReplaceAllSkips(u: string, v: string, pat: string, rep: string)
    requires NoMatchStart(u, pat)
    ensures ReplaceAll(u + v, pat, rep) == u + ReplaceAll(v, pat, rep)
    decreases |u|
  {
    if u == [] {
      assert u + v == v;
    } else {
      var s := u + v;
      if |s| < |pat| {
        ReplaceAllShort(v, pat, rep);
      } else {
        assert s[0] == u[0];
        if u[0] == pat[0] {
          assert |u| >= 2 && s[1] == u[1] && u[1] != pat[1];
        }
        assert s[..|pat|] != pat by {
          assert s[..|pat|][0] == s[0] && s[..|pat|][1] == s[1];
        }
        var r := ReplaceAll(v, pat, rep);
        assert ReplaceAll(s[1..], pat, rep) == u[1..] + r by {
          assert s[1..] == u[1..] + v;
          ReplaceAllSkips(u[1..], v, pat, rep);
        }
        assert ReplaceAll(s, pat, rep) == [u[0]] + (u[1..] + r);
        assert [u[0]] + (u[1..] + r) == u + r by {
          assert u == [u[0]] + u[1..];
        }
      }
    }
  }

  /** Two stretches where no occurrence can begin still hold none once joined. */
  lemma NoMatchStartAppend(a: string, b: string, pat: string)
    requires NoMatchStart(a, pat) && NoMatchStart(b, pat)
    ensures NoMatchStart(a + b, pat)
  {
    var s := a + b;
    forall i | 0 <= i < |s| - 1
      ensures s[i] != pat[0] || s[i + 1] != pat[1]
    {
      if i + 1 < |a| {
        assert s[i] == a[i] && s[i + 1] == a[i + 1];
      } else if i + 1 == |a| {
        assert s[i] == a[|a| - 1];
      } else {
        assert s[i] == b[i - |a|] && s[i + 1] == b[i - |a| + 1];
      }
    }
    if b != [] {
      assert s[|s| - 1] == b[|b| - 1];
    }
  }

  /** A leading occurrence followed by a stretch where none can begin is the only one replaced. */
  lemma ReplaceAllLeadingOnly(pat: string, w: string, rep: string)
    requires NoMatchStart(w, pat)
    ensures ReplaceAll(pat + w, pat, rep) == rep + w
  {
    ReplaceAllLeading(pat, w, rep);
    ReplaceAllSkips(w, [], pat, rep);
    ReplaceAllShort([], pat, rep);
    assert w + [] == w;
  }

  /**
   * With no other occurrence around it, a single occurrence of the pattern is
   * replaced and everything else is copied.
   */
  lemma ReplaceAllOne(u: string, pat: string, w: string, rep: string)
    requires NoMatchStart(u, pat) && NoMatchStart(w, pat)
    ensures ReplaceAll(u + pat + w, pat, rep) == u + rep + w
  {
    var tail := pat + w;
    assert u + pat + w == u + tail;
    assert ReplaceAll(u + tail, pat, rep) == u + (rep + w) by {
      ReplaceAllLeadingOnly(pat, w, rep);
      ReplaceAllSkips(u, tail, pat, rep);
    }
    assert u + (rep + w) == u + rep + w;
  }

  /** In `u + pat + t + q + w`, only the occurrence after `u` is replaced. */
  lemma ReplaceAllFirstOfFive(u: string, pat: string, t: string, q: string, w: string, rep: string)
    requires NoMatchStart(u, pat) && NoMatchStart(t, pat) && NoMatchStart(q, pat) && NoMatchStart(w, pat)
    ensures ReplaceAll(u + pat + t + q + w, pat, rep) == u + rep + t + q + w
  {
    var rest := t + q + w;
    assert NoMatchStart(rest, pat) by {
      NoMatchStartAppend(t, q, pat);
      NoMatchStartAppend(t + q, w, pat);
    }
    Regroup(u, pat, t, q, w);
    Regroup(u, rep, t, q, w);
    ReplaceAllOne(u, pat, rest, rep);
  }

  /** Proof helper: regrouping a five-part concatenation. */
  lemma Regroup(a: string, b: string, c: string, d: string, e: string)
    ensures a + b + c + d + e == a + b + (c + d + e)
  {
  }

  /** In `u + p + t + pat + w`, only the occurrence before `w` is replaced. */
  lemma ReplaceAllFourthOfFive(u: string, p: string, t: string, pat: string, w: string, rep: string)
    requires NoMatchStart(u, pat) && NoMatchStart(p, pat) && NoMatchStart(t, pat) && NoMatchStart(w, pat)
    ensures ReplaceAll(u + p + t + pat + w, pat, rep) == u + p + t + rep + w
  {
    assert NoMatchStart(u + p + t, pat) by {
      NoMatchStartAppend(u, p, pat);
      NoMatchStartAppend(u + p, t, pat);
    }
    ReplaceAllOne(u + p + t, pat, w, rep);
  }

  /** `pat` occurs in `s` at index `i`. */
  predicate OccursAt(s: string, pat: string, i: nat) {
    i + |pat| <= |s| && s[i..i + |pat|] == pat
  }

  /** A string in which the pattern does not occur is left as it is. */
  lemma {:induction false} ReplaceAllNoOccurrence(s: string, pat: string, rep: string)
    requires pat != []
    requires forall i: nat :: !OccursAt(s, pat, i)
    ensures ReplaceAll(s, pat, rep) == s
    decreases |s|
  {
    if |s| >= |pat| {
      assert !OccursAt(s, pat, 0);
      assert s[..|pat|] == s[0..|pat|];
      var t := s[1..];
      forall i: nat
        ensures !OccursAt(t, pat, i)
      {
        assert !OccursAt(s, pat, i + 1);
        if i + |pat| <= |t| {
          assert t[i..i + |pat|] == s[i + 1..i + 1 + |pat|];
        }
      }
      ReplaceAllNoOccurrence(t, pat, rep);
      assert [s[0]] + t == s;
    }
  }

  /** A string shorter than the pattern is left as it is. */
  lemma ReplaceAllShort(s: string, pat: string, rep: string)
    requires pat != [] && |s| < |pat|
    ensures ReplaceAll(s, pat, rep) == s
  {
  }
}
