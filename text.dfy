/**
 * Python string operations the generator relies on: `str.split()` with no
 * separator (used to read the charset file), `str(int)` (used to name the
 * per-character directories) and `str.endswith`.
 */
module Text {

  /** The characters for which Python's `str.isspace` holds. */
  predicate IsWhitespace(c: char) {
    c == ' ' || ('\t' <= c <= '\r') || ('\U{1c}' <= c <= '\U{1f}') || c == '\U{85}' || c == '\U{a0}'
    || c == '\U{1680}' || ('\U{2000}' <= c <= '\U{200a}') || c == '\U{2028}' || c == '\U{2029}'
    || c == '\U{202f}' || c == '\U{205f}' || c == '\U{3000}'
  }

  predicate NoWhitespace(s: string) {
    forall i :: 0 <= i < |s| ==> !IsWhitespace(s[i])
  }

  /** Length of the run of non-whitespace characters that starts `s`. */
  function TokenLength(s: string): (n: nat)
    ensures n <= |s|
    ensures NoWhitespace(s[..n])
    ensures n < |s| ==> IsWhitespace(s[n])
  {
    if s == [] || IsWhitespace(s[0]) then 0
    else
      var n := TokenLength(s[1..]);
      assert s[..n + 1] == [s[0]] + s[1..][..n];
      n + 1
  }

  /** `s.split()`: the maximal runs of non-whitespace characters, in order. */
  function Split(s: string): (tokens: seq<string>)
    ensures forall t <- tokens :: t != [] && NoWhitespace(t)
    decreases |s|
  {
    if s == [] then []
    else if IsWhitespace(s[0]) then Split(s[1..])
    else
      var n := TokenLength(s);
      [s[..n]] + Split(s[n..])
  }

  /** The characters of a list of one-character strings. */
  function CharsOf(tokens: seq<string>): (cs: seq<char>)
    requires forall t <- tokens :: |t| == 1
    ensures |cs| == |tokens| && forall i :: 0 <= i < |cs| ==> tokens[i] == [cs[i]]
  {
    seq(|tokens|, i requires 0 <= i < |tokens| => tokens[i][0])
  }

  /** The non-whitespace characters of `s`, in order. */
  function Ink(s: string): string {
    if s == [] then [] else (if IsWhitespace(s[0]) then [] else [s[0]]) + Ink(s[1..])
  }

  function Concat(ts: seq<string>): string {
    if ts == [] then [] else ts[0] + Concat(ts[1..])
  }

  /** The contents of a file that holds each token on a line of its own. */
  function Lines(ts: seq<string>): string {
    if ts == [] then [] else ts[0] + "\n" + Lines(ts[1..])
  }

  lemma {:induction false} InkAppend(a: string, b: string)
    ensures Ink(a + b) == Ink(a) + Ink(b)
    decreases |a|
  {
    if a == [] {
      assert a + b == b;
    } else {
      assert (a + b)[1..] == a[1..] + b;
      InkAppend(a[1..], b);
    }
  }

  lemma {:induction false} InkOfToken(t: string)
    requires NoWhitespace(t)
    ensures Ink(t) == t
    decreases |t|
  {
    if t != [] {
      InkOfToken(t[1..]);
      assert t == [t[0]] + t[1..];
    }
  }

  /** Splitting loses exactly the whitespace: the tokens spell out the other characters. */
  lemma {:induction false} SplitKeepsInk(s: string)
    ensures Concat(Split(s)) == Ink(s)
    decreases |s|
  {
    if s != [] {
      if IsWhitespace(s[0]) {
        SplitKeepsInk(s[1..]);
      } else {
        var n := TokenLength(s);
        SplitKeepsInk(s[n..]);
        assert s == s[..n] + s[n..];
        InkAppend(s[..n], s[n..]);
        InkOfToken(s[..n]);
        assert Split(s)[1..] == Split(s[n..]);
      }
    }
  }

  lemma {:induction false} TokenLengthOfLine(t: string, rest: string)
    requires NoWhitespace(t)
    ensures TokenLength(t + "\n" + rest) == |t|
    decreases |t|
  {
    if t == [] {
    } else {
      assert (t + "\n" + rest)[1..] == t[1..] + "\n" + rest;
      TokenLengthOfLine(t[1..], rest);
    }
  }

  /** Writing every token followed by a newline and splitting the result gives the tokens back. */
  lemma {:induction false} SplitLines(ts: seq<string>)
    requires forall t <- ts :: t != [] && NoWhitespace(t)
    ensures Split(Lines(ts)) == ts
    decreases |ts|
  {
    if ts != [] {
      var t, rest := ts[0], Lines(ts[1..]);
      var s := t + "\n" + rest;
      assert Lines(ts) == s;
      TokenLengthOfLine(t, rest);
      assert s[..|t|] == t;
      assert s[|t|..] == "\n" + rest;
      assert s != [] && !IsWhitespace(s[0]);
      assert Split(s) == [t] + Split(s[|t|..]);
      assert Split("\n" + rest) == Split(rest) by {
        assert ("\n" + rest)[1..] == rest;
      }
      assert forall u <- ts[1..] :: u in ts;
      SplitLines(ts[1..]);
    }
  }

  function Digit(d: nat): char
    requires d < 10
  {
    "0123456789"[d]
  }

  predicate IsDigit(c: char) {
    '0' <= c <= '9'
  }

  /** `str(n)` for a non-negative integer: its decimal digits, most significant first. */
  function Decimal(n: nat): (s: string)
    ensures s != []
    ensures forall i :: 0 <= i < |s| ==> IsDigit(s[i])
    ensures n < 10 <==> |s| == 1
  {
    if n < 10 then [Digit(n)] else Decimal(n / 10) + [Digit(n % 10)]
  }

  lemma DigitInjective(a: nat, b: nat)
    requires a < 10 && b < 10 && Digit(a) == Digit(b)
    ensures a == b
  {
  }

  /** Different numbers are printed differently, so code points name distinct directories. */
  lemma {:induction false} DecimalInjective(a: nat, b: nat)
    requires Decimal(a) == Decimal(b)
    ensures a == b
    decreases a
  {
    if a < 10 {
      DigitInjective(a, b);
    } else {
      var s := Decimal(a);
      assert s[..|s| - 1] == Decimal(a / 10) && s[|s| - 1] == Digit(a % 10);
      assert s[..|s| - 1] == Decimal(b / 10) && s[|s| - 1] == Digit(b % 10);
      DigitInjective(a % 10, b % 10);
      DecimalInjective(a / 10, b / 10);
    }
  }

  /** `s.endswith(suffix)`. */
  predicate EndsWith(s: string, suffix: string) {
    |suffix| <= |s| && s[|s| - |suffix|..] == suffix
  }
}
