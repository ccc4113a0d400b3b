/**
 * Strings with JavaScript's meaning: the `\s` character class (the same set of
 * code points that `String.prototype.trim` removes), trimming, ASCII
 * lower-casing, the last word of `s.split(/\s+/)`, and the two views of text
 * that the sentence pipeline is proved to keep: concatenation of pieces and the
 * non-whitespace characters of a string.
 */
module Text {

  /** JavaScript's `\s`: the WhiteSpace and LineTerminator code points. */
  predicate IsWhitespace(c: char) {
    || c == ' ' || c == '\t' || c == '\n' || c == '\r'
    || c as int == 0x0B || c as int == 0x0C || c as int == 0xA0 || c as int == 0x1680
    || (0x2000 <= c as int <= 0x200A)
    || c as int == 0x2028 || c as int == 0x2029 || c as int == 0x202F
    || c as int == 0x205F || c as int == 0x3000 || c as int == 0xFEFF
  }

  /** A string with no character but whitespace: what `!s.trim()` tests. */
  predicate IsBlank(s: string) {
    forall i :: 0 <= i < |s| ==> IsWhitespace(s[i])
  }

  lemma BlankAppend(a: string, b: string)
    requires IsBlank(a) && IsBlank(b)
    ensures IsBlank(a + b)
  {
    forall i | 0 <= i < |a + b| ensures IsWhitespace((a + b)[i]) {
      if i >= |a| {
        assert (a + b)[i] == b[i - |a|];
      }
    }
  }

  /** A string with no whitespace at either end. */
  predicate IsTrimmed(s: string) {
    s == [] || (!IsWhitespace(s[0]) && !IsWhitespace(s[|s| - 1]))
  }

  /** The suffix of `s` left after its leading whitespace. */
  function TrimStart(s: string): (r: string)
    ensures |r| <= |s|
  {
    if s != [] && IsWhitespace(s[0]) then TrimStart(s[1..]) else s
  }

  /** The prefix of `s` left after its trailing whitespace. */
  function TrimEnd(s: string): (r: string)
    ensures |r| <= |s|
  {
    if s != [] && IsWhitespace(s[|s| - 1]) then TrimEnd(s[..|s| - 1]) else s
  }

  /** `TrimStart` removes exactly the leading whitespace: what it drops is blank, and what it keeps starts with a non-whitespace character. */
  lemma {:induction false} TrimStartSpec(s: string)
    ensures |TrimStart(s)| <= |s| && TrimStart(s) == s[|s| - |TrimStart(s)|..]
    ensures IsBlank(s[..|s| - |TrimStart(s)|])
    ensures TrimStart(s) != [] ==> !IsWhitespace(TrimStart(s)[0])
  {
    if s != [] && IsWhitespace(s[0]) {
      TrimStartSpec(s[1..]);
      var k := |s| - |TrimStart(s)|;
      assert IsBlank(s[1..][..k - 1]);
      assert s[..k] == [s[0]] + s[1..][..k - 1];
      BlankAppend([s[0]], s[1..][..k - 1]);
    }
  }

  /** `TrimEnd` removes exactly the trailing whitespace: what it drops is blank, and what it keeps ends with a non-whitespace character. */
  lemma {:induction false} TrimEndSpec(s: string)
    ensures |TrimEnd(s)| <= |s| && TrimEnd(s) == s[..|TrimEnd(s)|]
    ensures IsBlank(s[|TrimEnd(s)|..])
    ensures TrimEnd(s) != [] ==> !IsWhitespace(TrimEnd(s)[|TrimEnd(s)| - 1])
  {
    if s != [] && IsWhitespace(s[|s| - 1]) {
      TrimEndSpec(s[..|s| - 1]);
      var k := |TrimEnd(s)|;
      assert s[k..] == s[..|s| - 1][k..] + [s[|s| - 1]];
      BlankAppend(s[..|s| - 1][k..], [s[|s| - 1]]);
    }
  }

  /** Where `Trim(s)` starts inside `s`. */
  function TrimOffset(s: string): nat {
    |s| - |TrimStart(s)|
  }

  /** `s.trim()`. */
  function Trim(s: string): string {
    TrimEnd(TrimStart(s))
  }

  /**
   * `Trim(s)` is the slice of `s` between its leading and its trailing
   * whitespace, and has no whitespace at either end.
   */
  lemma TrimSpec(s: string)
    ensures IsTrimmed(Trim(s))
    ensures TrimOffset(s) + |Trim(s)| <= |s| && Trim(s) == s[TrimOffset(s)..TrimOffset(s) + |Trim(s)|]
    ensures IsBlank(s[..TrimOffset(s)]) && IsBlank(s[TrimOffset(s) + |Trim(s)|..])
  {
    var t := TrimStart(s);
    TrimStartSpec(s);
    TrimEndSpec(t);
    var r := TrimEnd(t);
    assert s[TrimOffset(s) + |r|..] == t[|r|..];
  }

  /** `s.trim()` is empty exactly when `s` is blank. */
  lemma TrimEmptyIffBlank(s: string)
    ensures Trim(s) == [] <==> IsBlank(s)
  {
    TrimSpec(s);
    var k := TrimOffset(s);
    if Trim(s) == [] {
      assert s == s[..k] + s[k..];
      BlankAppend(s[..k], s[k..]);
    } else {
      assert Trim(s)[0] == s[k];
    }
  }

  /** Blank text, then a core with no whitespace at either end, then blank text: the trim is the core. */
  lemma TrimOfFramed(u: string, i: nat, j: nat)
    requires i < j <= |u|
    requires IsBlank(u[..i]) && IsBlank(u[j..])
    requires !IsWhitespace(u[i]) && !IsWhitespace(u[j - 1])
    ensures Trim(u) == u[i..j]
  {
    TrimSpec(u);
    TrimEmptyIffBlank(u);
    var k, n := TrimOffset(u), |Trim(u)|;
    assert !IsBlank(u) by { assert !IsWhitespace(u[i]); }
    assert Trim(u)[0] == u[k] && Trim(u)[n - 1] == u[k + n - 1];
    forall x | 0 <= x < k ensures IsWhitespace(u[x]) {
      assert u[..k][x] == u[x];
    }
    forall x | 0 <= x < i ensures IsWhitespace(u[x]) {
      assert u[..i][x] == u[x];
    }
    forall x | k + n <= x < |u| ensures IsWhitespace(u[x]) {
      assert u[k + n..][x - (k + n)] == u[x];
    }
    forall x | j <= x < |u| ensures IsWhitespace(u[x]) {
      assert u[j..][x - j] == u[x];
    }
  }

  /** Cutting `s` just after a non-whitespace character inside its trimmed core trims to the same prefix of that core. */
  lemma TrimOfPrefix(s: string, k: nat)
    requires TrimOffset(s) < k <= TrimOffset(s) + |Trim(s)| && !IsWhitespace(s[k - 1])
    ensures Trim(s[..k]) == Trim(s)[..k - TrimOffset(s)]
  {
    TrimSpec(s);
    var off, u := TrimOffset(s), s[..k];
    assert u[..off] == s[..off];
    assert u[off..k] == Trim(s)[..k - off] by {
      forall x | 0 <= x < k - off ensures u[off + x] == Trim(s)[x] {
        assert Trim(s)[x] == s[off + x];
      }
    }
    assert u[off] == Trim(s)[0];
    TrimOfFramed(u, off, k);
  }

  /** Trimming a string that is already trimmed changes nothing. */
  lemma TrimOfTrimmed(s: string)
    requires IsTrimmed(s)
    ensures Trim(s) == s
  {
    TrimSpec(s);
  }

  /** A string that ends in a non-whitespace character keeps that character as the last one of its trim. */
  lemma TrimKeepsLast(s: string)
    requires s != [] && !IsWhitespace(s[|s| - 1])
    ensures Trim(s) != [] && Trim(s)[|Trim(s)| - 1] == s[|s| - 1]
  {
    TrimSpec(s);
  }

  /** ASCII lower-casing of one character; other characters are unchanged. */
  function LowerChar(c: char): char {
    if 'A' <= c <= 'Z' then (c as int + 32) as char else c
  }

  /** `s.toLowerCase()`, restricted to ASCII letters. */
  function ToLower(s: string): string {
    seq(|s|, i requires 0 <= i < |s| => LowerChar(s[i]))
  }

  /** `s.split(/\s+/).pop()`: the longest suffix of `s` without whitespace. */
  function LastWord(s: string): (w: string)
    ensures |w| <= |s|
  {
    if s == [] || IsWhitespace(s[|s| - 1]) then [] else LastWord(s[..|s| - 1]) + [s[|s| - 1]]
  }

  /** `LastWord(s)` is a suffix of `s` without whitespace, and the character before it, if any, is whitespace. */
  lemma {:induction false} LastWordSpec(s: string)
    ensures LastWord(s) == s[|s| - |LastWord(s)|..]
    ensures forall i :: 0 <= i < |LastWord(s)| ==> !IsWhitespace(LastWord(s)[i])
    ensures |LastWord(s)| < |s| ==> IsWhitespace(s[|s| - |LastWord(s)| - 1])
  {
    if s != [] && !IsWhitespace(s[|s| - 1]) {
      var s' := s[..|s| - 1];
      LastWordSpec(s');
      assert s[|s| - |LastWord(s)|..] == s'[|s'| - |LastWord(s')|..] + [s[|s| - 1]];
    }
  }

  /** The last word of a string that ends in a word `w` after whitespace is `w`. */
  lemma {:induction false} LastWordAfterSpace(a: string, w: string)
    requires a != [] && IsWhitespace(a[|a| - 1])
    requires forall i :: 0 <= i < |w| ==> !IsWhitespace(w[i])
    ensures LastWord(a + w) == w
  {
    if w == [] {
      assert a + w == a;
    } else {
      var w' := w[..|w| - 1];
      assert (a + w)[..|a + w| - 1] == a + w';
      LastWordAfterSpace(a, w');
    }
  }

  /** The characters of `s` that are not whitespace, in order. */
  function NonWhitespace(s: string): string {
    if s == [] then [] else (if IsWhitespace(s[0]) then [] else [s[0]]) + NonWhitespace(s[1..])
  }

  lemma {:induction false} NonWhitespaceAppend(a: string, b: string)
    ensures NonWhitespace(a + b) == NonWhitespace(a) + NonWhitespace(b)
  {
    if a != [] {
      assert (a + b)[1..] == a[1..] + b;
      NonWhitespaceAppend(a[1..], b);
    } else {
      assert a + b == b;
    }
  }

  lemma {:induction false} NonWhitespaceOfBlank(s: string)
    ensures IsBlank(s) <==> NonWhitespace(s) == []
  {
    if s != [] {
      NonWhitespaceOfBlank(s[1..]);
      if IsBlank(s[1..]) && IsWhitespace(s[0]) {
        forall i | 0 <= i < |s| ensures IsWhitespace(s[i]) {
          if i > 0 { assert s[1..][i - 1] == s[i]; }
        }
      }
      if IsBlank(s) {
        assert forall i :: 0 <= i < |s| - 1 ==> s[1..][i] == s[i + 1];
      }
    }
  }

  /** Trimming removes whitespace only. */
  lemma {:induction false} NonWhitespaceOfTrim(s: string)
    ensures NonWhitespace(Trim(s)) == NonWhitespace(s)
  {
    TrimSpec(s);
    var k := TrimOffset(s);
    var r := Trim(s);
    var j := k + |r|;
    var front, back := s[..k], s[j..];
    assert r == s[k..j];
    assert s[k..] == r + back;
    assert s == front + s[k..];
    NonWhitespaceOfBlank(front);
    NonWhitespaceOfBlank(back);
    NonWhitespaceAppend(front, s[k..]);
    NonWhitespaceAppend(r, back);
  }

  /** The pieces of `ss` joined in order. */
  function Concat(ss: seq<string>): string {
    if ss == [] then [] else Concat(ss[..|ss| - 1]) + ss[|ss| - 1]
  }

  lemma {:induction false} ConcatAppend(a: seq<string>, b: seq<string>)
    ensures Concat(a + b) == Concat(a) + Concat(b)
    decreases |b|
  {
    if b == [] {
      assert a + b == a;
    } else {
      var init, x := b[..|b| - 1], b[|b| - 1];
      assert (a + b)[..|a + b| - 1] == a + init && (a + b)[|a + b| - 1] == x;
      assert Concat(a + b) == Concat(a + init) + x;
      ConcatAppend(a, init);
      assert Concat(b) == Concat(init) + x;
    }
  }
}
