/**
 * The few Python `str` operations the outline endpoint relies on:
 * `strip()`, `replace(old, new)` for one character, `lower()`,
 * `c * n` for a one-character string, and `sep.join(lines)`.
 * Strings are sequences of Unicode scalar values, as Python's are.
 */
module PyStr {

  /** Characters that `str.isspace()` accepts, hence those `str.strip()` removes. */
  predicate IsSpace(c: char) {
    c == ' ' || '\t' <= c <= '\r' || '\U{1C}' <= c <= '\U{1F}'
    || c == '\U{85}' || c == '\U{A0}' || c == '\U{1680}'
    || '\U{2000}' <= c <= '\U{200A}' || c == '\U{2028}' || c == '\U{2029}'
    || c == '\U{202F}' || c == '\U{205F}' || c == '\U{3000}'
  }

  /** Every character of `s` is whitespace (`s` may be empty). */
  predicate IsBlank(s: string) {
    forall k :: 0 <= k < |s| ==> IsSpace(s[k])
  }

  /** `s` with its leading whitespace removed. */
  function TrimStart(s: string): string {
    if s != [] && IsSpace(s[0]) then TrimStart(s[1..]) else s
  }

  /** What TrimStart leaves is a suffix after only whitespace, and it does not start with whitespace. */
  lemma {:induction false} TrimStartSpec(s: string)
    ensures var r := TrimStart(s);
      && |r| <= |s| && r == s[|s| - |r|..] && IsBlank(s[..|s| - |r|])
      && (r == [] || !IsSpace(r[0]))
    decreases |s|
  {
    if s != [] && IsSpace(s[0]) {
      TrimStartSpec(s[1..]);
      var r := TrimStart(s);
      var n := |s| - |r|;
      assert r == s[1..][|s| - 1 - |r|..] == s[n..];
      forall k | 0 <= k < n ensures IsSpace(s[..n][k]) {
        if k > 0 { assert s[..n][k] == s[1..][..|s| - 1 - |r|][k - 1]; }
      }
    } else {
      assert s[..0] == [];
    }
  }

  /** `s` with its trailing whitespace removed. */
  function TrimEnd(s: string): string {
    if s != [] && IsSpace(s[|s| - 1]) then TrimEnd(s[..|s| - 1]) else s
  }

  /** What TrimEnd leaves is a prefix before only whitespace, and it does not end with whitespace. */
  lemma {:induction false} TrimEndSpec(s: string)
    ensures var r := TrimEnd(s);
      && |r| <= |s| && r == s[..|r|] && IsBlank(s[|r|..])
      && (r == [] || !IsSpace(r[|r| - 1]))
    decreases |s|
  {
    if s != [] && IsSpace(s[|s| - 1]) {
      var t := s[..|s| - 1];
      TrimEndSpec(t);
      var r := TrimEnd(s);
      assert r == t[..|r|] == s[..|r|];
      forall k | 0 <= k < |s| - |r| ensures IsSpace(s[|r|..][k]) {
        if |r| + k < |s| - 1 {
          assert s[|r|..][k] == t[|r|..][k];
        } else {
          assert s[|r|..][k] == s[|s| - 1];
        }
      }
    } else {
      assert s[|s|..] == [];
    }
  }

  /** Python's `s.strip()`: `s` without the whitespace at either end. */
  function Strip(s: string): (r: string)
    ensures |r| <= |s|
    ensures r == [] || (!IsSpace(r[0]) && !IsSpace(r[|r| - 1]))
  {
    TrimStartSpec(s);
    TrimEndSpec(TrimStart(s));
    TrimEnd(TrimStart(s))
  }

  /**
   * What `strip()` leaves is the infix of `s` that remains once the
   * whitespace at both ends is gone.
   */
  lemma StripIsTrimmedInfix(s: string)
    ensures exists i :: 0 <= i <= |s| - |Strip(s)| && Strip(s) == s[i..i + |Strip(s)|]
                        && IsBlank(s[..i]) && IsBlank(s[i + |Strip(s)|..])
  {
    var t := TrimStart(s);
    var r := TrimEnd(t);
    TrimStartSpec(s);
    TrimEndSpec(t);
    var i := |s| - |t|;
    assert t == s[i..];
    assert r == t[..|r|];
    assert r == s[i..i + |r|];
    assert IsBlank(s[..i]);
    assert s[i + |r|..] == t[|r|..];
    assert IsBlank(s[i + |r|..]);
    assert 0 <= i <= |s| - |r| && r == s[i..i + |r|] && IsBlank(s[..i]) && IsBlank(s[i + |r|..]);
  }

  /** Stripping leaves nothing exactly when the string is all whitespace. */
  lemma StripEmptyIffBlank(s: string)
    ensures Strip(s) == [] <==> IsBlank(s)
  {
    var r := Strip(s);
    StripIsTrimmedInfix(s);
    var i :| 0 <= i <= |s| - |r| && r == s[i..i + |r|] && IsBlank(s[..i]) && IsBlank(s[i + |r|..]);
    if r == [] {
      forall k | 0 <= k < |s| ensures IsSpace(s[k]) {
        if k < i { assert s[k] == s[..i][k]; } else { assert s[k] == s[i..][k - i]; }
      }
    }
  }

  /** Stripping twice is stripping once. */
  lemma StripIdempotent(s: string)
    ensures Strip(Strip(s)) == Strip(s)
  {
  }

  /** Python's `s.replace(old, new)` where `old` and `new` are one character each. */
  function ReplaceChar(s: string, from: char, to: char): (r: string)
    ensures |r| == |s|
    ensures forall i :: 0 <= i < |s| ==> r[i] == (if s[i] == from then to else s[i])
    ensures from != to ==> from !in r
  {
    seq(|s|, i requires 0 <= i < |s| => if s[i] == from then to else s[i])
  }

  /** Replacing `a` by `b` is undone by replacing `b` by `a` when `b` did not occur. */
  lemma ReplaceCharUndone(s: string, a: char, b: char)
    requires b !in s
    ensures ReplaceChar(ReplaceChar(s, a, b), b, a) == s
  {
    var t := ReplaceChar(s, a, b);
    var u := ReplaceChar(t, b, a);
    forall i | 0 <= i < |s| ensures u[i] == s[i] {
      assert s[i] != b;
    }
  }

  /**
   * Python's `c.lower()` for the characters whose lower-case form is a
   * single ASCII letter: `A` .. `Z`, and KELVIN SIGN, which becomes `k`.
   * Every other character is left as it is.
   */
  function LowerChar(c: char): (d: char)
    ensures 'A' <= c <= 'Z' ==> 'a' <= d <= 'z' && d as int - 'a' as int == c as int - 'A' as int
    ensures c == '\U{212A}' ==> d == 'k'
    ensures !('A' <= c <= 'Z') && c != '\U{212A}' ==> d == c
    ensures !('A' <= d <= 'Z')
  {
    if 'A' <= c <= 'Z' then (c as int - 'A' as int + 'a' as int) as char
    else if c == '\U{212A}' then 'k'
    else c
  }

  /** Python's `s.lower()` as far as LowerChar goes: each character lowered in place. */
  function Lower(s: string): (r: string)
    ensures |r| == |s|
    ensures forall i :: 0 <= i < |s| ==> r[i] == LowerChar(s[i])
    ensures forall i :: 0 <= i < |r| ==> !('A' <= r[i] <= 'Z')
  {
    seq(|s|, i requires 0 <= i < |s| => LowerChar(s[i]))
  }

  /** Python's `c * n` for a one-character string `c`. */
  function Repeat(c: char, n: nat): (r: string)
    ensures |r| == n
    ensures forall i :: 0 <= i < n ==> r[i] == c
  {
    seq(n, _ => c)
  }

  /** Python's `sep.join(lines)`. */
  function Join(sep: string, lines: seq<string>): (r: string)
    ensures |lines| > 0 ==> lines[0] <= r
  {
    if |lines| == 0 then ""
    else if |lines| == 1 then lines[0]
    else lines[0] + sep + Join(sep, lines[1..])
  }

  const BlankLine := "\n\n"

  /**
   * Python's `s.split("\n\n")`: the pieces between the leftmost,
   * non-overlapping occurrences of a blank line.
   */
  function SplitBlankLines(s: string): (pieces: seq<string>)
    ensures |pieces| > 0
    decreases |s|
  {
    if |s| < 2 then [s]
    else if s[0] == '\n' && s[1] == '\n' then [""] + SplitBlankLines(s[2..])
    else
      var rest := SplitBlankLines(s[1..]);
      [[s[0]] + rest[0]] + rest[1..]
  }

  /** A piece without a newline is its own split. */
  lemma {:induction false} SplitSingle(l: string)
    requires '\n' !in l
    ensures SplitBlankLines(l) == [l]
    decreases |l|
  {
    if |l| >= 2 {
      SplitSingle(l[1..]);
      assert [l[0]] + l[1..] == l;
    }
  }

  /** Splitting finds the first separator when it follows a newline-free piece. */
  lemma {:induction false} SplitAfterPiece(l: string, t: string)
    requires '\n' !in l
    ensures SplitBlankLines(l + BlankLine + t) == [l] + SplitBlankLines(t)
    decreases |l|
  {
    var s := l + BlankLine + t;
    if l == [] {
      assert s == BlankLine + t && s[2..] == t;
    } else {
      assert s[0] == l[0] && s[1..] == l[1..] + BlankLine + t;
      SplitAfterPiece(l[1..], t);
      assert [l[0]] + l[1..] == l;
    }
  }

  /** Joining newline-free lines with blank lines and splitting them again gives the lines back. */
  lemma {:induction false} SplitJoin(lines: seq<string>)
    requires |lines| > 0
    requires forall k :: 0 <= k < |lines| ==> '\n' !in lines[k]
    ensures SplitBlankLines(Join(BlankLine, lines)) == lines
    decreases |lines|
  {
    if |lines| == 1 {
      SplitSingle(lines[0]);
    } else {
      SplitAfterPiece(lines[0], Join(BlankLine, lines[1..]));
      SplitJoin(lines[1..]);
    }
  }
}
