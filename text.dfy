/** The character classes and string operations the engine borrows from
    Python's `str` and `re`: `isdigit`, `int`, `str(int)`, `strip`,
    `split(",")` and `split()`.  Characters are restricted to ASCII:
    whitespace is the ASCII part of what Python counts as whitespace (space,
    `\t`, `\n`, `\v`, `\f`, `\r` and the separators `\x1c`-`\x1f`), digits are
    `0`-`9`. */
module Text {

  predicate IsSpace(c: char) {
    c == ' ' || c == '\t' || c == '\n' || c == '\r' || c == '\U{B}' || c == '\U{C}' ||
    '\U{1C}' <= c <= '\U{1F}'
  }

  predicate IsDigit(c: char) {
    '0' <= c <= '9'
  }

  predicate IsIdentStart(c: char) {
    c == '_' || 'a' <= c <= 'z' || 'A' <= c <= 'Z'
  }

  predicate IsIdentChar(c: char) {
    IsIdentStart(c) || IsDigit(c)
  }

  predicate AllDigits(s: string) {
    forall i :: 0 <= i < |s| ==> IsDigit(s[i])
  }

  /** `str.isdigit`: non-empty and made of digits only. */
  predicate IsDigits(s: string) {
    |s| > 0 && AllDigits(s)
  }

  /** The identifier pattern `[_a-zA-Z][_a-zA-Z0-9]*`. */
  predicate IsIdentifier(s: string) {
    |s| > 0 && IsIdentStart(s[0]) && forall i :: 0 < i < |s| ==> IsIdentChar(s[i])
  }

  predicate NoSpaces(s: string) {
    forall i :: 0 <= i < |s| ==> !IsSpace(s[i])
  }

  predicate AllSpaces(s: string) {
    forall i :: 0 <= i < |s| ==> IsSpace(s[i])
  }

  predicate StartsWith(s: string, prefix: string) {
    |prefix| <= |s| && s[..|prefix|] == prefix
  }

  predicate EndsWith(s: string, suffix: string) {
    |suffix| <= |s| && s[|s| - |suffix|..] == suffix
  }

  // ---------------------------------------------------------------------------
  // Decimal numbers: `int(s)` on a digit string and `str(n)` on an integer.

  /** The value of a digit string read in base ten (leading zeros allowed). */
  function DigitsValue(s: string): nat
    requires AllDigits(s)
  {
    if s == [] then 0 else 10 * DigitsValue(s[..|s| - 1]) + (s[|s| - 1] as int - '0' as int)
  }

  function DigitChar(d: nat): (c: char)
    requires d < 10
    ensures IsDigit(c) && c as int - '0' as int == d
  {
    ('0' as int + d) as char
  }

  /** The shortest decimal digit string of `n`. */
  function NatString(n: nat): (s: string)
    ensures IsDigits(s)
  {
    if n < 10 then [DigitChar(n)] else NatString(n / 10) + [DigitChar(n % 10)]
  }

  /** `str(n)` for a Python integer: a minus sign for negative numbers. */
  function DecimalString(n: int): string {
    if n < 0 then "-" + NatString(-n) else NatString(n)
  }

  /** Reading back the decimal form of a natural number gives the number. */
  lemma {:induction false} NatStringRoundTrip(n: nat)
    ensures IsDigits(NatString(n)) && DigitsValue(NatString(n)) == n
  {
    if n >= 10 {
      NatStringRoundTrip(n / 10);
      var s := NatString(n);
      assert s[..|s| - 1] == NatString(n / 10);
    }
  }

  /** `str(n)` is a digit string exactly for the non-negative `n`, and then it reads back as `n`. */
  lemma DecimalStringRoundTrip(n: int)
    ensures IsDigits(DecimalString(n)) <==> n >= 0
    ensures n >= 0 ==> DigitsValue(DecimalString(n)) == n
  {
    if n >= 0 {
      NatStringRoundTrip(n);
    } else {
      assert !IsDigit(DecimalString(n)[0]);
    }
  }

  // ---------------------------------------------------------------------------
  // `str.strip()`

  function TrimLeft(s: string): (r: string)
    ensures |r| <= |s|
    ensures r == [] || !IsSpace(r[0])
  {
    if s != [] && IsSpace(s[0]) then TrimLeft(s[1..]) else s
  }

  function TrimRight(s: string): (r: string)
    ensures |r| <= |s|
  {
    if s != [] && IsSpace(s[|s| - 1]) then TrimRight(s[..|s| - 1]) else s
  }

  /** `TrimLeft` removes a leading run of whitespace and nothing else. */
  lemma {:induction false} TrimLeftSpec(s: string)
    ensures TrimLeft(s) == s[|s| - |TrimLeft(s)|..]
    ensures AllSpaces(s[..|s| - |TrimLeft(s)|])
  {
    if s != [] && IsSpace(s[0]) {
      TrimLeftSpec(s[1..]);
      var n := |s| - |TrimLeft(s)|;
      assert s[1..][..n - 1] == s[1..n];
      assert forall i :: 1 <= i < n ==> s[i] == s[1..][..n - 1][i - 1];
    }
  }

  /** `TrimRight` removes a trailing run of whitespace and nothing else. */
  lemma {:induction false} TrimRightSpec(s: string)
    ensures TrimRight(s) == s[..|TrimRight(s)|]
    ensures AllSpaces(s[|TrimRight(s)|..])
    ensures TrimRight(s) == [] || !IsSpace(TrimRight(s)[|TrimRight(s)| - 1])
  {
    if s != [] && IsSpace(s[|s| - 1]) {
      TrimRightSpec(s[..|s| - 1]);
      var n := |TrimRight(s)|;
      assert s[..|s| - 1][..n] == s[..n];
      assert forall i :: n <= i < |s| - 1 ==> s[i] == s[..|s| - 1][n..][i - n];
    }
  }

  /** `str.strip()`: the text without its leading and trailing whitespace. */
  function Strip(s: string): (r: string)
    ensures |r| <= |s|
  {
    TrimRight(TrimLeft(s))
  }

  /** Stripping removes whitespace only: it leaves neither leading nor trailing
      whitespace, empties exactly the all-whitespace texts, and keeps a text
      without whitespace as it is. */
  lemma StripSpec(s: string)
    ensures var r := Strip(s);
      (r == [] || (!IsSpace(r[0]) && !IsSpace(r[|r| - 1]))) &&
      (r == [] <==> AllSpaces(s)) &&
      (NoSpaces(s) ==> r == s)
  {
    var t := TrimLeft(s);
    TrimLeftSpec(s);
    TrimRightSpec(t);
  }

  // ---------------------------------------------------------------------------
  // `str.split(sep)` with a one-character separator, and its inverse `sep.join`.

  function Count(s: string, c: char): nat {
    if s == [] then 0 else (if s[0] == c then 1 else 0) + Count(s[1..], c)
  }

  /** `sep.join(pieces)`. */
  function Join(pieces: seq<string>, sep: string): string {
    if |pieces| == 0 then []
    else if |pieces| == 1 then pieces[0]
    else pieces[0] + sep + Join(pieces[1..], sep)
  }

  /** `s.split(sep)`: cuts at every occurrence of `sep`, so `k` separators give `k + 1` pieces. */
  function Split(s: string, sep: char): (r: seq<string>)
    ensures |r| == Count(s, sep) + 1
    ensures forall i :: 0 <= i < |r| ==> |r[i]| <= |s|
  {
    if s == [] then [[]]
    else
      var rest := Split(s[1..], sep);
      if s[0] == sep then [[]] + rest else [[s[0]] + rest[0]] + rest[1..]
  }

  /** No piece holds the separator, and joining the pieces gives back the text. */
  lemma {:induction false} SplitSpec(s: string, sep: char)
    ensures forall i :: 0 <= i < |Split(s, sep)| ==> sep !in Split(s, sep)[i]
    ensures Join(Split(s, sep), [sep]) == s
  {
    if s != [] {
      SplitSpec(s[1..], sep);
      var rest := Split(s[1..], sep);
      var r := Split(s, sep);
      if s[0] == sep {
        assert r[1..] == rest;
        assert Join(r, [sep]) == [sep] + Join(rest, [sep]);
      } else {
        assert r[1..] == rest[1..];
        assert Join(r, [sep]) == [s[0]] + Join(rest, [sep]);
        assert sep !in r[0] by {
          assert r[0] == [s[0]] + rest[0];
        }
        assert forall i :: 0 < i < |r| ==> r[i] == rest[i];
      }
    }
  }

  lemma {:induction false} SplitPrefix(p: string, t: string, sep: char)
    requires sep !in p
    ensures Split(p + [sep] + t, sep) == [p] + Split(t, sep)
  {
    if p != [] {
      var s := p + [sep] + t;
      assert s[1..] == p[1..] + [sep] + t;
      assert s[0] == p[0] != sep;
      SplitPrefix(p[1..], t, sep);
      var rest := Split(s[1..], sep);
      assert rest[0] == p[1..] && rest[1..] == Split(t, sep);
      assert [p[0]] + p[1..] == p;
    } else {
      assert (p + [sep] + t)[1..] == t;
    }
  }

  lemma {:induction false} SplitNoSep(p: string, sep: char)
    requires sep !in p
    ensures Split(p, sep) == [p]
  {
    if p != [] {
      assert p[0] != sep;
      SplitNoSep(p[1..], sep);
      assert [p[0]] + p[1..] == p;
    }
  }

  /** Splitting a join of separator-free pieces gives back the pieces. */
  lemma {:induction false} SplitJoin(pieces: seq<string>, sep: char)
    requires |pieces| > 0
    requires forall i :: 0 <= i < |pieces| ==> sep !in pieces[i]
    ensures Split(Join(pieces, [sep]), sep) == pieces
  {
    if |pieces| == 1 {
      SplitNoSep(pieces[0], sep);
    } else {
      SplitJoin(pieces[1..], sep);
      SplitPrefix(pieces[0], Join(pieces[1..], [sep]), sep);
    }
  }

  // ---------------------------------------------------------------------------
  // `str.split()` with no argument: the maximal runs of non-whitespace.

  function TakeWord(s: string): (r: string)
    ensures |r| <= |s| && r == s[..|r|] && NoSpaces(r)
    ensures |r| == |s| || IsSpace(s[|r|])
  {
    if s == [] || IsSpace(s[0]) then [] else [s[0]] + TakeWord(s[1..])
  }

  lemma {:induction false} TakeWordOf(w: string, rest: string)
    requires NoSpaces(w)
    requires rest == [] || IsSpace(rest[0])
    ensures TakeWord(w + rest) == w
  {
    if w != [] {
      assert (w + rest)[1..] == w[1..] + rest;
      TakeWordOf(w[1..], rest);
      assert [w[0]] + w[1..] == w;
    } else {
      assert w + rest == rest;
    }
  }

  /** `s.split()`: the maximal runs of non-whitespace characters, in order. */
  function Words(s: string): seq<string>
    decreases |s|
  {
    var t := TrimLeft(s);
    if t == [] then []
    else
      var w := TakeWord(t);
      [w] + Words(t[|w|..])
  }

  /** `split()` never yields an empty word nor a word holding whitespace. */
  lemma {:induction false} WordsSpec(s: string)
    ensures forall i :: 0 <= i < |Words(s)| ==> Words(s)[i] != [] && NoSpaces(Words(s)[i])
    decreases |s|
  {
    var t := TrimLeft(s);
    if t != [] {
      var w := TakeWord(t);
      var tail := Words(t[|w|..]);
      WordsSpec(t[|w|..]);
      assert w != [] && NoSpaces(w);
      WordsConsSpec(w, tail);
    }
  }

  lemma WordsConsSpec(w: string, tail: seq<string>)
    requires w != [] && NoSpaces(w)
    requires forall i :: 0 <= i < |tail| ==> tail[i] != [] && NoSpaces(tail[i])
    ensures forall i :: 0 <= i < |[w] + tail| ==> ([w] + tail)[i] != [] && NoSpaces(([w] + tail)[i])
  {
  }

  lemma WordsAfterSpace(x: string)
    ensures Words(" " + x) == Words(x)
  {
    assert (" " + x)[1..] == x;
    assert TrimLeft(" " + x) == TrimLeft(x);
  }

  lemma WordsStep(w: string, rest: string)
    requires w != [] && NoSpaces(w)
    requires rest == [] || IsSpace(rest[0])
    ensures Words(w + rest) == [w] + Words(rest)
  {
    var s := w + rest;
    assert TrimLeft(s) == s;
    TakeWordOf(w, rest);
    assert s[|w|..] == rest;
  }

  /** A word, a space, and the rest: the word is the first token. */
  lemma WordsCons(w: string, rest: string)
    requires w != [] && NoSpaces(w)
    ensures Words(w + (" " + rest)) == [w] + Words(rest)
  {
    WordsStep(w, " " + rest);
    WordsAfterSpace(rest);
  }

  /** Splitting a space-joined list of non-empty, whitespace-free words gives back the words. */
  lemma {:induction false} WordsOfJoin(words: seq<string>)
    requires forall i :: 0 <= i < |words| ==> words[i] != [] && NoSpaces(words[i])
    ensures Words(Join(words, " ")) == words
  {
    if |words| == 1 {
      WordsSingle(words[0]);
      assert words == [words[0]];
    } else if |words| > 1 {
      var tail := words[1..];
      assert forall i :: 0 <= i < |tail| ==> tail[i] == words[i + 1];
      WordsOfJoin(tail);
      WordsJoinCons(words);
    }
  }

  lemma WordsJoinCons(words: seq<string>)
    requires |words| > 1 && words[0] != [] && NoSpaces(words[0])
    requires Words(Join(words[1..], " ")) == words[1..]
    ensures Words(Join(words, " ")) == words
  {
    JoinCons(words, " ");
    WordsCons(words[0], Join(words[1..], " "));
    assert [words[0]] + words[1..] == words;
  }

  lemma WordsSingle(w: string)
    requires w != [] && NoSpaces(w)
    ensures Words(w) == [w]
  {
    WordsStep(w, []);
    assert w + [] == w;
  }

  lemma JoinCons(pieces: seq<string>, sep: string)
    requires |pieces| > 1
    ensures Join(pieces, sep) == pieces[0] + (sep + Join(pieces[1..], sep))
  {
  }
}
