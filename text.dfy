/**
 * The .NET string operations the naming code relies on, on `seq<char>`:
 * ordinal Contains, left-to-right non-overlapping Replace, and Trim of
 * the characters Char.IsWhiteSpace accepts.
 */
module Text {

  /** Char.IsWhiteSpace: the Unicode space separators, line and paragraph separators, and U+0009..U+000D, U+0085. */
  predicate IsWhiteSpace(c: char) {
    || c == ' '
    || ('\t' <= c <= '\r')
    || c == '\U{85}' || c == '\U{A0}' || c == '\U{1680}'
    || ('\U{2000}' <= c <= '\U{200A}')
    || c == '\U{2028}' || c == '\U{2029}' || c == '\U{202F}' || c == '\U{205F}' || c == '\U{3000}'
  }

  predicate StartsWith(s: string, p: string) {
    |p| <= |s| && s[..|p|] == p
  }

  predicate EndsWith(s: string, p: string) {
    |p| <= |s| && s[|s| - |p|..] == p
  }

  /** String.Contains: `p` occurs in `s` at some position. */
  predicate Contains(s: string, p: string)
    decreases |s|
  {
    StartsWith(s, p) || (|s| > 0 && Contains(s[1..], p))
  }

  /** String.Replace: every occurrence of `pattern`, scanning left to right without overlap, becomes `replacement`. */
  function Replace(s: string, pattern: string, replacement: string): string
    requires |pattern| > 0
    decreases |s|
  {
    if |s| < |pattern| then s
    else if s[..|pattern|] == pattern then replacement + Replace(s[|pattern|..], pattern, replacement)
    else [s[0]] + Replace(s[1..], pattern, replacement)
  }

  function TrimStart(s: string): string
    decreases |s|
  {
    if |s| > 0 && IsWhiteSpace(s[0]) then TrimStart(s[1..]) else s
  }

  function TrimEnd(s: string): string
    decreases |s|
  {
    if |s| > 0 && IsWhiteSpace(s[|s| - 1]) then TrimEnd(s[..|s| - 1]) else s
  }

  /** String.Trim: drop leading and trailing white space. */
  function Trim(s: string): string {
    TrimEnd(TrimStart(s))
  }

  // ---------------------------------------------------------------- Contains

  lemma {:induction false} ContainsNeedsRoom(s: string, p: string)
    requires Contains(s, p)
    ensures |p| <= |s|
    decreases |s|
  {
    if !StartsWith(s, p) {
      ContainsNeedsRoom(s[1..], p);
    }
  }

  /** An occurrence inside a prefix is an occurrence in the whole string. */
  lemma {:induction false} ContainsPrefix(s: string, j: nat, p: string)
    requires j <= |s| && Contains(s[..j], p)
    ensures Contains(s, p)
    decreases |s|
  {
    var t := s[..j];
    if StartsWith(t, p) {
      assert s[..|p|] == t[..|p|];
    } else {
      assert t[1..] == s[1..][..j - 1];
      ContainsPrefix(s[1..], j - 1, p);
    }
  }

  /** An occurrence inside a suffix is an occurrence in the whole string. */
  lemma {:induction false} ContainsSuffix(s: string, i: nat, p: string)
    requires i <= |s| && Contains(s[i..], p)
    ensures Contains(s, p)
    decreases i
  {
    if i > 0 {
      assert s[i..] == s[1..][i - 1..];
      ContainsSuffix(s[1..], i - 1, p);
    } else {
      assert s[0..] == s;
    }
  }

  lemma ContainsSlice(s: string, i: nat, j: nat, p: string)
    requires i <= j <= |s| && Contains(s[i..j], p)
    ensures Contains(s, p)
  {
    assert s[i..j] == s[i..][..j - i];
    ContainsPrefix(s[i..], j - i, p);
    ContainsSuffix(s, i, p);
  }

  // -------------------------------------------------------------------- Trim

  lemma {:induction false} TrimStartIsSuffix(s: string) returns (k: nat)
    ensures k <= |s| && TrimStart(s) == s[k..]
    ensures forall m :: 0 <= m < k ==> IsWhiteSpace(s[m])
    decreases |s|
  {
    if |s| > 0 && IsWhiteSpace(s[0]) {
      var k' := TrimStartIsSuffix(s[1..]);
      k := k' + 1;
      assert s[1..][k'..] == s[k..];
    } else {
      k := 0;
    }
  }

  lemma {:induction false} TrimEndIsPrefix(s: string) returns (m: nat)
    ensures m <= |s| && TrimEnd(s) == s[..m]
    ensures m == |s| || IsWhiteSpace(s[|s| - 1])
    decreases |s|
  {
    if |s| > 0 && IsWhiteSpace(s[|s| - 1]) {
      var m' := TrimEndIsPrefix(s[..|s| - 1]);
      m := m';
      assert s[..|s| - 1][..m'] == s[..m];
    } else {
      m := |s|;
    }
  }

  /** Trim keeps a contiguous piece of its argument, so it cannot create an occurrence. */
  lemma TrimKeepsAbsence(s: string, p: string)
    requires !Contains(s, p)
    ensures !Contains(Trim(s), p)
  {
    var k := TrimStartIsSuffix(s);
    var t := s[k..];
    var m := TrimEndIsPrefix(t);
    assert Trim(s) == s[k..k + m];
    if Contains(Trim(s), p) {
      ContainsSlice(s, k, k + m, p);
    }
  }

  /** A string that ends in a non-white character after position j keeps everything from j on when trimmed. */
  lemma TrimKeepsTail(s: string, tail: string)
    requires EndsWith(s, tail) && |tail| > 0
    requires !IsWhiteSpace(tail[0]) && !IsWhiteSpace(tail[|tail| - 1])
    ensures EndsWith(Trim(s), tail)
  {
    var k := TrimStartIsSuffix(s);
    var j := |s| - |tail|;
    assert s[j] == tail[0];
    assert k <= j;
    var t := s[k..];
    assert t[|t| - |tail|..] == tail;
    assert t[|t| - 1] == tail[|tail| - 1];
    assert TrimEnd(t) == t;
  }

  // ---------------------------------------------------- lower-case "village"

  predicate NoLowerV(x: string) {
    forall k :: 0 <= k < |x| ==> x[k] != 'v'
  }

  /** A prefix without a 'v' cannot hold the start of an occurrence of "village". */
  lemma {:induction false} SkipNoLowerV(x: string, t: string)
    requires NoLowerV(x) && !Contains(t, "village")
    ensures !Contains(x + t, "village")
    decreases |x|
  {
    if |x| == 0 {
      assert x + t == t;
    } else {
      assert (x + t)[0] == x[0];
      assert (x + t)[1..] == x[1..] + t;
      SkipNoLowerV(x[1..], t);
    }
  }

  lemma StartsWithHead(s: string, p: string)
    requires StartsWith(s, p) && |p| > 0
    ensures s[0] == p[0]
  {
    assert s[..|p|][0] == p[0];
  }

  /** Replacing "village" by "Village" keeps any prefix without a 'V' that the result starts with. */
  lemma {:induction false} ReplaceVillageKeepsPrefix(s: string, p: string)
    requires forall k :: 0 <= k < |p| ==> p[k] != 'V'
    requires StartsWith(Replace(s, "village", "Village"), p)
    ensures StartsWith(s, p)
    decreases |s|
  {
    var r := Replace(s, "village", "Village");
    if |s| < 7 {
    } else if s[..7] == "village" {
      if |p| > 0 {
        StartsWithHead(r, p);
        assert false;
      }
    } else if |p| > 0 {
      assert r == [s[0]] + Replace(s[1..], "village", "Village");
      assert StartsWith(Replace(s[1..], "village", "Village"), p[1..]) by {
        assert r[1..][..|p| - 1] == r[..|p|][1..];
      }
      ReplaceVillageKeepsPrefix(s[1..], p[1..]);
      assert s[..|p|] == [s[0]] + s[1..][..|p| - 1];
    }
  }

  /** After every "village" became "Village", no lower-case "village" is left. */
  lemma {:induction false} ReplaceVillageRemovesAll(s: string)
    ensures !Contains(Replace(s, "village", "Village"), "village")
    decreases |s|
  {
    var r := Replace(s, "village", "Village");
    if |s| < 7 {
      if Contains(r, "village") {
        ContainsNeedsRoom(r, "village");
      }
    } else if s[..7] == "village" {
      ReplaceVillageRemovesAll(s[7..]);
      SkipNoLowerV("Village", Replace(s[7..], "village", "Village"));
    } else {
      var rest := Replace(s[1..], "village", "Village");
      assert r == [s[0]] + rest;
      ReplaceVillageRemovesAll(s[1..]);
      if StartsWith(r, "village") {
        assert rest[..6] == r[1..7];
        assert StartsWith(rest, "illage");
        ReplaceVillageKeepsPrefix(s[1..], "illage");
        assert false;
      }
      assert r[1..] == rest;
    }
  }

  // --------------------------------------------------- the " (Capital)" tag

  /** The tag itself holds no " Village". */
  lemma CapitalTagHasNoVillage()
    ensures Replace(" (Capital)", " Village", "") == " (Capital)"
    ensures !Contains(" (Capital)", " Village")
  {
    CapitalTagReplace();
    CapitalTagContains();
  }

  lemma CapitalTagReplace()
    ensures Replace(" (Capital)", " Village", "") == " (Capital)"
  {
    var tag := " (Capital)";
    assert tag[..8][1] != " Village"[1];
    assert tag[1..][..8][0] != " Village"[0];
    assert tag[2..][..8][0] != " Village"[0];
    assert tag[1..][1..] == tag[2..];
    assert tag[2..][1..] == tag[3..];
    assert Replace(tag[3..], " Village", "") == tag[3..];
    assert Replace(tag[2..], " Village", "") == [tag[2]] + tag[3..];
    assert Replace(tag[1..], " Village", "") == [tag[1]] + tag[2..];
  }

  lemma CapitalTagContains()
    ensures !Contains(" (Capital)", " Village")
  {
    var tag := " (Capital)";
    assert tag[..8][1] != " Village"[1];
    assert tag[1..][..8][0] != " Village"[0];
    assert tag[2..][..8][0] != " Village"[0];
    assert tag[1..][1..] == tag[2..];
    assert tag[2..][1..] == tag[3..];
    assert !Contains(tag[3..], " Village") by {
      if Contains(tag[3..], " Village") { ContainsNeedsRoom(tag[3..], " Village"); }
    }
  }

  /** No occurrence of " Village" can start before the tag and run into it. */
  lemma NoOccurrenceAcrossTag(g: string)
    requires 0 < |g| < 8
    ensures !StartsWith(g + " (Capital)", " Village")
  {
    var s := g + " (Capital)";
    assert s[|g|] == ' ';
  }

  /** So the removal leaves the tag alone. */
  lemma {:induction false} ReplaceBeforeCapitalTag(g: string)
    ensures Replace(g + " (Capital)", " Village", "") == Replace(g, " Village", "") + " (Capital)"
    decreases |g|
  {
    var tag := " (Capital)";
    var s := g + tag;
    if |g| == 0 {
      assert s == tag;
      CapitalTagHasNoVillage();
    } else if |g| < 8 {
      NoOccurrenceAcrossTag(g);
      assert s[1..] == g[1..] + tag;
      ReplaceBeforeCapitalTag(g[1..]);
    } else if g[..8] == " Village" {
      assert g[..8] == s[..8];
      assert s[8..] == g[8..] + tag;
      ReplaceBeforeCapitalTag(g[8..]);
    } else {
      assert g[..8] == s[..8];
      assert s[1..] == g[1..] + tag;
      ReplaceBeforeCapitalTag(g[1..]);
    }
  }

  lemma {:induction false} ContainsBeforeCapitalTag(g: string)
    ensures Contains(g + " (Capital)", " Village") <==> Contains(g, " Village")
    decreases |g|
  {
    var tag := " (Capital)";
    var s := g + tag;
    if |g| == 0 {
      assert s == tag;
      CapitalTagHasNoVillage();
      assert !Contains(g, " Village") by {
        if Contains(g, " Village") { ContainsNeedsRoom(g, " Village"); }
      }
    } else {
      assert s[1..] == g[1..] + tag;
      ContainsBeforeCapitalTag(g[1..]);
      if |g| < 8 {
        NoOccurrenceAcrossTag(g);
      } else {
        assert g[..8] == s[..8];
      }
    }
  }
}
