/**
 * The string operations the ledger's file format rests on: finding a character,
 * `str.split` on a separator and its inverse `str.join`, iterating a text file
 * line by line, `str.strip`, and decimal digit strings.
 */
module Text {

  // ---------------------------------------------------------------- characters

  predicate IsDigit(c: char) { '0' <= c <= '9' }

  predicate AllDigits(s: string) { forall i :: 0 <= i < |s| ==> IsDigit(s[i]) }

  /**
   * The characters `str.strip` removes: Python's whitespace, which besides the
   * ASCII blanks and line ends takes in the four information separators
   * U+001C to U+001F and the Unicode spaces and line and paragraph separators.
   */
  predicate IsSpace(c: char) {
    if c <= ' ' then '\t' <= c <= '\r' || '\U{1C}' <= c else IsWideSpace(c)
  }

  /** The spaces and the line and paragraph separators beyond ASCII that Python counts as whitespace. */
  predicate IsWideSpace(c: char) {
    || c == '\U{85}' || c == '\U{A0}' || c == '\U{1680}'
    || '\U{2000}' <= c <= '\U{200A}'
    || c == '\U{2028}' || c == '\U{2029}' || c == '\U{202F}' || c == '\U{205F}' || c == '\U{3000}'
  }

  /** Index of the first occurrence of `c` in `s`, or `|s|` when there is none. */
  function IndexOf(s: string, c: char): (n: nat)
    ensures n <= |s|
    ensures n < |s| ==> s[n] == c
    ensures forall i :: 0 <= i < n ==> s[i] != c
  {
    if s == [] then 0
    else if s[0] == c then 0
    else 1 + IndexOf(s[1..], c)
  }

  lemma IndexOfAfter(a: string, c: char, b: string)
    requires c !in a
    ensures IndexOf(a + [c] + b, c) == |a|
  {
    var s := a + [c] + b;
    var n := IndexOf(s, c);
    assert s[|a|] == c;
  }

  // ---------------------------------------------------------------- split / join

  /** `s.split(sep)`: the pieces between separators, always at least one. */
  function Split(s: string, sep: char): (fields: seq<string>)
    ensures |fields| >= 1
    ensures forall i :: 0 <= i < |fields| ==> sep !in fields[i]
    ensures |fields[0]| <= |s| && fields[0] == s[..|fields[0]|]
    decreases |s|
  {
    var n := IndexOf(s, sep);
    if n == |s| then [s] else [s[..n]] + Split(s[n + 1..], sep)
  }

  /** A character the string does not hold is in none of its pieces. */
  lemma {:induction false} SplitAvoids(s: string, sep: char, c: char)
    requires c !in s
    ensures forall i :: 0 <= i < |Split(s, sep)| ==> c !in Split(s, sep)[i]
    decreases |s|
  {
    var n := IndexOf(s, sep);
    if n < |s| {
      assert s == s[..n] + [sep] + s[n + 1..];
      SplitAvoids(s[n + 1..], sep, c);
    }
  }

  /** `sep.join(fields)`. */
  function Join(fields: seq<string>, sep: char): string
    requires |fields| >= 1
  {
    if |fields| == 1 then fields[0] else fields[0] + [sep] + Join(fields[1..], sep)
  }

  /** Joining the pieces of a split gives back the string. */
  lemma {:induction false} JoinSplit(s: string, sep: char)
    ensures Join(Split(s, sep), sep) == s
    decreases |s|
  {
    var n := IndexOf(s, sep);
    if n < |s| {
      var rest := Split(s[n + 1..], sep);
      JoinSplit(s[n + 1..], sep);
      JoinCons(s[..n], rest, sep);
      assert s == s[..n] + [sep] + s[n + 1..];
    }
  }

  lemma JoinCons(first: string, rest: seq<string>, sep: char)
    requires |rest| >= 1
    ensures Join([first] + rest, sep) == first + [sep] + Join(rest, sep)
  {
    assert ([first] + rest)[1..] == rest;
  }

  /** Splitting a join of separator-free pieces gives back the pieces. */
  lemma {:induction false} SplitJoin(fields: seq<string>, sep: char)
    requires |fields| >= 1
    requires forall i :: 0 <= i < |fields| ==> sep !in fields[i]
    ensures Split(Join(fields, sep), sep) == fields
  {
    if |fields| > 1 {
      var rest := fields[1..];
      var text := Join(rest, sep);
      assert Join(fields, sep) == fields[0] + [sep] + text;
      assert Split(fields[0] + [sep] + text, sep) == [fields[0]] + Split(text, sep) by {
        SplitCons(fields[0], text, sep);
      }
      assert Split(text, sep) == rest by {
        assert forall i :: 0 <= i < |rest| ==> rest[i] == fields[i + 1];
        SplitJoin(rest, sep);
      }
      assert fields == [fields[0]] + rest;
    }
  }

  /** A separator-free piece and a separator in front of more text split off as the first piece. */
  lemma SplitCons(first: string, rest: string, sep: char)
    requires sep !in first
    ensures Split(first + [sep] + rest, sep) == [first] + Split(rest, sep)
  {
    var s := first + [sep] + rest;
    IndexOfAfter(first, sep, rest);
    assert s[..|first|] == first;
    assert s[|first| + 1..] == rest;
  }

  lemma {:induction false} JoinAvoids(fields: seq<string>, sep: char, c: char)
    requires |fields| >= 1 && c != sep
    requires forall i :: 0 <= i < |fields| ==> c !in fields[i]
    ensures c !in Join(fields, sep)
  {
    if |fields| > 1 {
      JoinAvoids(fields[1..], sep, c);
    }
  }

  // ---------------------------------------------------------------- lines

  /** A piece of a text file as Python's `for line in file` yields it: a newline, if any, only at the end. */
  predicate IsLine(l: string) { forall i :: 0 <= i < |l| - 1 ==> l[i] != '\n' }

  /**
   * The lines `for line in file` yields from the file's text: each ends just after a
   * newline, except a last one the text does not end with a newline for.
   */
  function Lines(s: string): (ls: seq<string>)
    ensures forall i :: 0 <= i < |ls| ==> ls[i] != [] && IsLine(ls[i])
    ensures forall i :: 0 <= i < |ls| - 1 ==> ls[i][|ls[i]| - 1] == '\n'
    decreases |s|
  {
    if s == [] then []
    else
      var n := IndexOf(s, '\n');
      if n == |s| then [s] else [s[..n + 1]] + Lines(s[n + 1..])
  }

  function Concat(ls: seq<string>): string {
    if ls == [] then [] else ls[0] + Concat(ls[1..])
  }

  /** Reading the lines back and gluing them together gives the whole text. */
  lemma {:induction false} ConcatLines(s: string)
    ensures Concat(Lines(s)) == s
    decreases |s|
  {
    if s != [] {
      var n := IndexOf(s, '\n');
      if n < |s| {
        ConcatLines(s[n + 1..]);
        assert s == s[..n + 1] + s[n + 1..];
      }
    }
  }

  /** A newline-terminated line in front of more text is yielded on its own. */
  lemma LinesCons(l: string, rest: string)
    requires '\n' !in l
    ensures Lines(l + "\n" + rest) == [l + "\n"] + Lines(rest)
  {
    var s := l + "\n" + rest;
    IndexOfAfter(l, '\n', rest);
    assert s[..|l| + 1] == l + "\n";
    assert s[|l| + 1..] == rest;
  }

  // ---------------------------------------------------------------- strip

  /** `s.lstrip()`: the suffix left after the leading whitespace. */
  function TrimStart(s: string): (t: string)
    ensures |t| <= |s| && t == s[|s| - |t|..]
    ensures t == [] || !IsSpace(t[0])
    ensures forall i :: 0 <= i < |s| - |t| ==> IsSpace(s[i])
  {
    if s != [] && IsSpace(s[0]) then
      var t := TrimStart(s[1..]);
      assert s[|s| - |t|..] == s[1..][|s| - 1 - |t|..];
      assert forall i :: 0 < i < |s| - |t| ==> s[i] == s[1..][i - 1];
      t
    else s
  }

  /** `s.rstrip()`: the prefix left before the trailing whitespace. */
  function TrimEnd(s: string): (t: string)
    ensures |t| <= |s| && t == s[..|t|]
    ensures t == [] || !IsSpace(t[|t| - 1])
    ensures forall i :: |t| <= i < |s| ==> IsSpace(s[i])
  {
    if s != [] && IsSpace(s[|s| - 1]) then
      var t := TrimEnd(s[..|s| - 1]);
      assert s[..|t|] == s[..|s| - 1][..|t|];
      assert forall i :: |t| <= i < |s| - 1 ==> s[i] == s[..|s| - 1][i];
      t
    else s
  }

  /** `s.strip()`: what is left once the whitespace at both ends is gone. */
  function Strip(s: string): (t: string)
    ensures |t| <= |s|
    ensures t == [] || (!IsSpace(t[0]) && !IsSpace(t[|t| - 1]))
  {
    var a := TrimStart(s);
    var t := TrimEnd(a);
    assert t != [] ==> t[0] == a[0];
    t
  }

  /**
   * `s.strip()` is the middle part of `s`, from position `j` on, that neither
   * starts nor ends with whitespace, and everything in front of it and behind
   * it is whitespace. It is empty exactly when `s` is all whitespace.
   */
  lemma StripMiddle(s: string)
    ensures var t := Strip(s); var j := |s| - |TrimStart(s)|;
      && j + |t| <= |s|
      && (forall i :: 0 <= i < |t| ==> t[i] == s[j + i])
      && (forall i :: 0 <= i < j ==> IsSpace(s[i]))
      && (forall i :: j + |t| <= i < |s| ==> IsSpace(s[i]))
    ensures Strip(s) == [] <==> forall i :: 0 <= i < |s| ==> IsSpace(s[i])
  {
    var a := TrimStart(s);
    var t := TrimEnd(a);
    var j := |s| - |a|;
    assert t == Strip(s);
    assert forall i :: 0 <= i < |t| ==> t[i] == s[j + i] by {
      StripSlice(s, j, a, t);
    }
    assert forall i :: j + |t| <= i < |s| ==> IsSpace(s[i]) by {
      StripTail(s, j, a, t);
    }
    assert t != [] ==> !IsSpace(s[j]) by {
      if t != [] {
        assert t[0] == s[j] && !IsSpace(t[0]);
      }
    }
  }

  /** What `rstrip` keeps of the suffix `a` of `s` starting at `j` is the text of `s` from `j` on. */
  lemma StripSlice(s: string, j: nat, a: string, t: string)
    requires j + |a| == |s| && a == s[j..] && |t| <= |a| && t == a[..|t|]
    ensures forall i :: 0 <= i < |t| ==> t[i] == s[j + i]
  {
    forall i | 0 <= i < |t|
      ensures t[i] == s[j + i]
    {
      assert t[i] == a[i];
    }
  }

  /** What `rstrip` cuts off the suffix `a` of `s` is whitespace of `s`. */
  lemma StripTail(s: string, j: nat, a: string, t: string)
    requires j + |a| == |s| && a == s[j..] && |t| <= |a|
    requires forall i :: |t| <= i < |a| ==> IsSpace(a[i])
    ensures forall i :: j + |t| <= i < |s| ==> IsSpace(s[i])
  {
    forall i | j + |t| <= i < |s|
      ensures IsSpace(s[i])
    {
      assert s[i] == a[i - j];
    }
  }

  /** Stripping a newline-terminated line whose text neither starts nor ends with whitespace drops just the newline. */
  lemma StripLine(l: string)
    requires l != [] && !IsSpace(l[0]) && !IsSpace(l[|l| - 1])
    ensures Strip(l + "\n") == l
  {
    var s := l + "\n";
    assert TrimStart(s) == s;
    assert |TrimEnd(s)| == |l|;
  }

  /** Stripping a line leaves no newline behind, and what is left does not start with whitespace. */
  lemma StripOfLine(l: string)
    requires IsLine(l)
    ensures '\n' !in Strip(l)
    ensures Strip(l) == [] || !IsSpace(Strip(l)[0])
  {
    var a := TrimStart(l);
    var t := TrimEnd(a);
    LineSuffix(l, |l| - |a|);
    LinePrefixNoNewline(a, t);
    if t != [] {
      assert t[0] == a[0];
    }
  }

  lemma LineSuffix(l: string, k: nat)
    requires IsLine(l) && k <= |l|
    ensures IsLine(l[k..])
  {
    var s := l[k..];
    forall i | 0 <= i < |s| - 1 ensures s[i] != '\n' {
      assert s[i] == l[k + i];
    }
  }

  /** A prefix of a line that ends in a non-space character holds no newline. */
  lemma LinePrefixNoNewline(a: string, t: string)
    requires IsLine(a) && |t| <= |a| && t == a[..|t|]
    requires t == [] || !IsSpace(t[|t| - 1])
    ensures '\n' !in t
  {
    forall k | 0 <= k < |t| ensures t[k] != '\n' {
      if k < |a| - 1 {
        assert t[k] == a[k];
      }
    }
  }

  // ---------------------------------------------------------------- decimal numbers

  function DigitChar(d: nat): (c: char)
    requires d < 10
    ensures IsDigit(c)
  {
    (48 + d) as char
  }

  function DigitValue(c: char): nat
    requires IsDigit(c)
  {
    c as int - 48
  }

  /** The value of a string of decimal digits, most significant first; `int(s)`. */
  function DigitsValue(s: string): nat
    requires AllDigits(s)
  {
    if s == [] then 0 else 10 * DigitsValue(s[..|s| - 1]) + DigitValue(s[|s| - 1])
  }

  /** `str(n)` for a natural number: its decimal digits, without leading zeros. */
  function NatText(n: nat): (s: string)
    ensures s != [] && AllDigits(s)
    ensures |s| > 1 ==> s[0] != '0'
  {
    if n < 10 then [DigitChar(n)] else NatText(n / 10) + [DigitChar(n % 10)]
  }

  /** `str(n)` for an integer: a minus sign in front of a negative one. */
  function IntText(n: int): string {
    if n < 0 then "-" + NatText(-n) else NatText(n)
  }

  /** Reading back the digits `NatText` writes gives the number. */
  lemma {:induction false} NatTextValue(n: nat)
    ensures DigitsValue(NatText(n)) == n
  {
    var s := NatText(n);
    if n >= 10 {
      NatTextValue(n / 10);
      assert s[..|s| - 1] == NatText(n / 10);
    }
  }

  function Pow10(k: nat): (p: nat)
    ensures p >= 1
  {
    if k == 0 then 1 else 10 * Pow10(k - 1)
  }

  /** A number with `k` decimal digits is written with exactly `k` characters. */
  lemma {:induction false} NatTextWidth(n: nat, k: nat)
    requires k >= 1
    requires (k == 1 || Pow10(k - 1) <= n) && n < Pow10(k)
    ensures |NatText(n)| == k
  {
    if k > 1 {
      assert n >= 10;
      NatTextWidth(n / 10, k - 1);
    }
  }
}
