/**
 * The two string normalisations the user schema applies on assignment:
 * JavaScript's String.prototype.trim and toLowerCase.
 */
module Text {

  /** The characters String.prototype.trim strips: JavaScript's WhiteSpace and LineTerminator. */
  predicate IsJsSpace(c: char)
  {
    || c == '\t' || c == '\n' || c == '\U{B}' || c == '\U{C}' || c == '\r' || c == ' '
    || c == '\U{A0}' || c == '\U{1680}' || ('\U{2000}' <= c <= '\U{200A}')
    || c == '\U{2028}' || c == '\U{2029}' || c == '\U{202F}' || c == '\U{205F}'
    || c == '\U{3000}' || c == '\U{FEFF}'
  }

  /** Drops leading whitespace. */
  function TrimStart(s: string): (r: string)
    ensures |r| <= |s|
  {
    if s != [] && IsJsSpace(s[0]) then TrimStart(s[1..]) else s
  }

  /** The result of TrimStart is a suffix of `s`, only whitespace was dropped, and it starts with none. */
  lemma {:induction false} TrimStartDrops(s: string)
    ensures var r := TrimStart(s);
            && r == s[|s| - |r|..]
            && (forall j | 0 <= j < |s| - |r| :: IsJsSpace(s[j]))
            && (r == [] || !IsJsSpace(r[0]))
    decreases |s|
  {
    if s != [] && IsJsSpace(s[0]) {
      TrimStartDrops(s[1..]);
      var r := TrimStart(s);
      forall j | 0 <= j < |s| - |r| ensures IsJsSpace(s[j]) {
        if j > 0 { assert s[j] == s[1..][j - 1]; }
      }
    }
  }

  /** Drops trailing whitespace. */
  function TrimEnd(s: string): (r: string)
    ensures |r| <= |s|
  {
    if s != [] && IsJsSpace(s[|s| - 1]) then TrimEnd(s[..|s| - 1]) else s
  }

  /** The result of TrimEnd is a prefix of `s`, only whitespace was dropped, and it ends with none. */
  lemma {:induction false} TrimEndDrops(s: string)
    ensures var r := TrimEnd(s);
            && r == s[..|r|]
            && (forall j | |r| <= j < |s| :: IsJsSpace(s[j]))
            && (r == [] || !IsJsSpace(r[|r| - 1]))
    decreases |s|
  {
    if s != [] && IsJsSpace(s[|s| - 1]) {
      TrimEndDrops(s[..|s| - 1]);
      var r := TrimEnd(s);
      forall j | |r| <= j < |s| ensures IsJsSpace(s[j]) {
        if j < |s| - 1 { assert s[j] == s[..|s| - 1][j]; }
      }
    }
  }

  /** Neither end of `s` is whitespace. */
  predicate IsTrimmed(s: string)
  {
    s == [] || (!IsJsSpace(s[0]) && !IsJsSpace(s[|s| - 1]))
  }

  /** String.prototype.trim: neither end of the result is whitespace. */
  function Trim(s: string): (r: string)
    ensures |r| <= |s| && IsTrimmed(r)
  {
    TrimStartDrops(s);
    TrimEndDrops(TrimStart(s));
    TrimEnd(TrimStart(s))
  }

  /** toLowerCase on one character; only the ASCII letters A-Z are mapped. */
  function LowerChar(c: char): char
  {
    if 'A' <= c <= 'Z' then (c as int - 'A' as int + 'a' as int) as char else c
  }

  /** No ASCII upper-case letter occurs in `s`. */
  predicate IsLower(s: string)
  {
    forall i | 0 <= i < |s| :: !('A' <= s[i] <= 'Z')
  }

  function ToLower(s: string): (r: string)
    ensures |r| == |s| && IsLower(r)
  {
    seq(|s|, i requires 0 <= i < |s| => LowerChar(s[i]))
  }

  /** Trimming a string that already has no whitespace at either end changes nothing. */
  lemma TrimOfTrimmed(s: string)
    requires IsTrimmed(s)
    ensures Trim(s) == s
  {
    assert TrimStart(s) == s;
  }

  /** Trimming is idempotent. */
  lemma TrimIdempotent(s: string)
    ensures Trim(Trim(s)) == Trim(s)
  {
    TrimOfTrimmed(Trim(s));
  }

  /** A string without upper-case letters is its own lower case. */
  lemma ToLowerOfLower(s: string)
    requires IsLower(s)
    ensures ToLower(s) == s
  {
  }

  /** Trimming keeps a lower-case string lower-case. */
  lemma TrimKeepsLower(s: string)
    requires IsLower(s)
    ensures IsLower(Trim(s))
  {
    var t := TrimStart(s);
    TrimStartDrops(s);
    forall i | 0 <= i < |t| ensures !('A' <= t[i] <= 'Z') {
      assert t[i] == s[|s| - |t| + i];
    }
    var r := TrimEnd(t);
    TrimEndDrops(t);
    forall i | 0 <= i < |r| ensures !('A' <= r[i] <= 'Z') {
      assert r[i] == t[i];
    }
  }

  lemma {:induction false} TrimStartOfLower(s: string)
    ensures TrimStart(ToLower(s)) == ToLower(TrimStart(s))
    decreases |s|
  {
    if s != [] {
      assert ToLower(s)[1..] == ToLower(s[1..]);
      if IsJsSpace(s[0]) {
        TrimStartOfLower(s[1..]);
      }
    }
  }

  lemma {:induction false} TrimEndOfLower(s: string)
    ensures TrimEnd(ToLower(s)) == ToLower(TrimEnd(s))
    decreases |s|
  {
    if s != [] {
      assert ToLower(s)[..|s| - 1] == ToLower(s[..|s| - 1]);
      if IsJsSpace(s[|s| - 1]) {
        TrimEndOfLower(s[..|s| - 1]);
      }
    }
  }

  /**
   * Lower-casing and trimming commute, so the order in which the email
   * setters run does not matter.
   */
  lemma TrimOfLower(s: string)
    ensures Trim(ToLower(s)) == ToLower(Trim(s))
  {
    TrimStartOfLower(s);
    TrimEndOfLower(TrimStart(s));
  }

  /** Trimming a string with one leading space added gives back the trimmed string. */
  lemma PaddedTrim(e: string)
    requires IsTrimmed(e)
    ensures Trim(" " + e) == e
  {
    assert (" " + e)[1..] == e;
    assert TrimStart(" " + e) == TrimStart(e);
    TrimOfTrimmed(e);
  }

  /** Lower-casing keeps a string free of whitespace at its ends. */
  lemma ToLowerKeepsTrimmed(s: string)
    requires IsTrimmed(s)
    ensures IsTrimmed(ToLower(s))
  {
    if s != [] {
      assert ToLower(s)[0] == LowerChar(s[0]);
      assert ToLower(s)[|s| - 1] == LowerChar(s[|s| - 1]);
    }
  }

  /**
   * String.prototype.length: the number of UTF-16 code units, where a
   * character outside the Basic Multilingual Plane takes two.
   */
  function Utf16Length(s: string): (n: nat)
    ensures |s| <= n <= 2 * |s|
    ensures (forall i | 0 <= i < |s| :: s[i] < '\U{10000}') ==> n == |s|
    ensures (forall i | 0 <= i < |s| :: s[i] >= '\U{10000}') ==> n == 2 * |s|
  {
    if s == [] then 0
    else (if s[0] < '\U{10000}' then 1 else 2) + Utf16Length(s[1..])
  }
}
