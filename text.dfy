/** The Python 2 byte-string operations the archive tools rely on, as pure
    functions over `string`: `split()` and `split(c)`, `join`, `readlines`,
    `strip`, ASCII `lower`, `int()`, `repr` of an int, `"%7d"`, `replace`,
    slicing and `cmp`. Each is written to agree with CPython 2's behaviour
    on the inputs the tools give it. */
module Text {
  import opened Results

  /** The characters `str.split()` and `str.strip()` treat as whitespace. */
  predicate IsSpace(c: char) {
    c == ' ' || c == '\t' || c == '\n' || c == '\r' || c == '\U{000B}' || c == '\U{000C}'
  }

  predicate IsDigit(c: char) {
    '0' <= c <= '9'
  }

  /** A word as `str.split()` produces it: non-empty, no whitespace. */
  predicate IsToken(s: string) {
    |s| > 0 && forall i :: 0 <= i < |s| ==> !IsSpace(s[i])
  }

  type Token = s: string | IsToken(s) witness "0"

  predicate AllSpace(s: string) {
    forall i :: 0 <= i < |s| ==> IsSpace(s[i])
  }

  predicate NoChar(s: string, c: char) {
    forall i :: 0 <= i < |s| ==> s[i] != c
  }

  // ---------------------------------------------------------------------
  // str.split() with no argument

  /** The maximal leading run of non-whitespace characters. */
  function TakeWord(s: string): (w: string)
    ensures w <= s
    ensures forall i :: 0 <= i < |w| ==> !IsSpace(w[i])
    ensures |w| == |s| || IsSpace(s[|w|])
    ensures s != [] && !IsSpace(s[0]) ==> |w| >= 1
  {
    if s == [] || IsSpace(s[0]) then [] else [s[0]] + TakeWord(s[1..])
  }

  /** `s.split()`: the maximal runs of non-whitespace, in order. */
  function Words(s: string): (ws: seq<string>)
    ensures forall i :: 0 <= i < |ws| ==> IsToken(ws[i])
    decreases |s|
  {
    if s == [] then []
    else if IsSpace(s[0]) then Words(s[1..])
    else var w := TakeWord(s); [w] + Words(s[|w|..])
  }

  lemma {:induction false} TakeWordOfToken(t: string, rest: string)
    requires forall i :: 0 <= i < |t| ==> !IsSpace(t[i])
    requires rest == [] || IsSpace(rest[0])
    ensures TakeWord(t + rest) == t
    decreases |t|
  {
    if t == [] {
      assert t + rest == rest;
    } else {
      assert (t + rest)[1..] == t[1..] + rest;
      TakeWordOfToken(t[1..], rest);
    }
  }

  /** Leading whitespace never changes the words of a string. */
  lemma {:induction false} WordsSkipSpace(sp: string, rest: string)
    requires AllSpace(sp)
    ensures Words(sp + rest) == Words(rest)
    decreases |sp|
  {
    if sp != [] {
      assert (sp + rest)[1..] == sp[1..] + rest;
      WordsSkipSpace(sp[1..], rest);
    } else {
      assert sp + rest == rest;
    }
  }

  /** A token followed by whitespace (or nothing) is the first word. */
  lemma {:induction false} WordsToken(t: string, rest: string)
    requires IsToken(t)
    requires rest == [] || IsSpace(rest[0])
    ensures Words(t + rest) == [t] + Words(rest)
  {
    TakeWordOfToken(t, rest);
    assert (t + rest)[|t|..] == rest;
  }

  /** The shape every line of the descriptors is built from:
      whitespace, a token, then whitespace or the end. */
  lemma SpacedToken(sp: string, t: string, rest: string)
    requires AllSpace(sp) && IsToken(t)
    requires rest == [] || IsSpace(rest[0])
    ensures Words(sp + t + rest) == [t] + Words(rest)
  {
    assert sp + t + rest == sp + (t + rest);
    WordsSkipSpace(sp, t + rest);
    WordsToken(t, rest);
  }

  // ---------------------------------------------------------------------
  // str.split(c), sep.join(parts)

  /** `s.split(c)` for a one-character separator: always at least one
      piece; empty pieces are kept. */
  function SplitOn(s: string, c: char): (r: seq<string>)
    ensures |r| >= 1
    decreases |s|
  {
    if s == [] then [[]]
    else
      var rest := SplitOn(s[1..], c);
      if s[0] == c then [[]] + rest
      else [[s[0]] + rest[0]] + rest[1..]
  }

  /** No piece of `SplitOn(s, c)` contains `c`. */
  lemma {:induction false} SplitOnNoChar(s: string, c: char)
    ensures forall i :: 0 <= i < |SplitOn(s, c)| ==> NoChar(SplitOn(s, c)[i], c)
    decreases |s|
  {
    if s != [] {
      SplitOnNoChar(s[1..], c);
      var rest := SplitOn(s[1..], c);
      if s[0] != c {
        assert NoChar([s[0]] + rest[0], c) by {
          assert forall j :: 0 < j < |[s[0]] + rest[0]| ==> ([s[0]] + rest[0])[j] == rest[0][j - 1];
        }
      }
    }
  }

  /** `sep.join(parts)`. */
  function Join(sep: string, parts: seq<string>): string
    decreases |parts|
  {
    if |parts| == 0 then ""
    else if |parts| == 1 then parts[0]
    else parts[0] + sep + Join(sep, parts[1..])
  }

  /** Splitting a string and joining it back with the same separator gives
      the string back. */
  lemma {:induction false} JoinSplitOn(s: string, c: char)
    ensures Join([c], SplitOn(s, c)) == s
    decreases |s|
  {
    if s != [] {
      JoinSplitOn(s[1..], c);
      var rest := SplitOn(s[1..], c);
      if s[0] == c {
        assert Join([c], [[]] + rest) == [] + [c] + Join([c], rest);
      } else {
        var parts := [[s[0]] + rest[0]] + rest[1..];
        if |rest| == 1 {
          assert parts == [[s[0]] + rest[0]];
          assert Join([c], rest) == rest[0];
        } else {
          assert parts[1..] == rest[1..];
          assert Join([c], rest) == rest[0] + [c] + Join([c], rest[1..]);
        }
      }
    }
  }

  /** Joining pieces that do not contain the separator and splitting the
      result gives the pieces back. */
  lemma {:induction false} SplitOnJoin(parts: seq<string>, c: char)
    requires |parts| >= 1
    requires forall i :: 0 <= i < |parts| ==> NoChar(parts[i], c)
    ensures SplitOn(Join([c], parts), c) == parts
    decreases |parts|
  {
    if |parts| == 1 {
      SplitOnFree(parts[0], c);
    } else {
      SplitOnJoin(parts[1..], c);
      var tail := Join([c], parts[1..]);
      SplitOnPrefix(parts[0], c, tail);
      assert Join([c], parts) == parts[0] + ([c] + tail);
      assert [parts[0]] + parts[1..] == parts;
    }
  }

  lemma {:induction false} SplitOnFree(p: string, c: char)
    requires NoChar(p, c)
    ensures SplitOn(p, c) == [p]
    decreases |p|
  {
    if p != [] {
      SplitOnFree(p[1..], c);
      assert [p[0]] + p[1..] == p;
    }
  }

  lemma {:induction false} SplitOnPrefix(p: string, c: char, tail: string)
    requires NoChar(p, c)
    ensures SplitOn(p + ([c] + tail), c) == [p] + SplitOn(tail, c)
    decreases |p|
  {
    if p == [] {
      assert p + ([c] + tail) == [c] + tail;
      assert ([c] + tail)[1..] == tail;
    } else {
      var s := p + ([c] + tail);
      assert s[1..] == p[1..] + ([c] + tail);
      SplitOnPrefix(p[1..], c, tail);
      assert [p[0]] + p[1..] == p;
    }
  }

  // ---------------------------------------------------------------------
  // readlines() and "".join(lines)

  /** `f.readlines()`: pieces ending just after each newline, plus a last
      piece without one when the text does not end with a newline. */
  function Lines(s: string): (ls: seq<string>)
    ensures forall i :: 0 <= i < |ls| ==> |ls[i]| > 0
    ensures Concat(ls) == s
    decreases |s|
  {
    if s == [] then []
    else
      var rest := Lines(s[1..]);
      if s[0] == '\n' || rest == [] then
        assert Concat([[s[0]]] + rest) == [s[0]] + Concat(rest);
        [[s[0]]] + rest
      else
        assert Concat([[s[0]] + rest[0]] + rest[1..]) == [s[0]] + rest[0] + Concat(rest[1..]);
        [[s[0]] + rest[0]] + rest[1..]
  }

  function Concat(ls: seq<string>): string
    decreases |ls|
  {
    if ls == [] then "" else ls[0] + Concat(ls[1..])
  }

  /** A line: ends with its only newline. */
  predicate IsLine(l: string) {
    |l| > 0 && l[|l| - 1] == '\n' && NoChar(l[..|l| - 1], '\n')
  }

  lemma {:induction false} LinesCons(l: string, rest: string)
    requires IsLine(l)
    ensures Lines(l + rest) == [l] + Lines(rest)
    decreases |l|
  {
    var s := l + rest;
    if |l| == 1 {
      assert s[0] == '\n' && s[1..] == rest;
    } else {
      assert s[1..] == l[1..] + rest;
      assert l[1..][..|l[1..]| - 1] == l[..|l| - 1][1..];
      LinesCons(l[1..], rest);
      assert s[0] == l[..|l| - 1][0];
      assert [s[0]] + l[1..] == l;
    }
  }

  /** Reading back a text made of lines gives those lines. */
  lemma {:induction false} LinesOfConcat(ls: seq<string>)
    requires forall i :: 0 <= i < |ls| ==> IsLine(ls[i])
    ensures Lines(Concat(ls)) == ls
    decreases |ls|
  {
    if ls != [] {
      LinesOfConcat(ls[1..]);
      LinesCons(ls[0], Concat(ls[1..]));
    }
  }

  lemma {:induction false} ConcatAppend(a: seq<string>, b: seq<string>)
    ensures Concat(a + b) == Concat(a) + Concat(b)
    decreases |a|
  {
    if a == [] {
      assert a + b == b;
    } else {
      assert (a + b)[1..] == a[1..] + b;
      ConcatAppend(a[1..], b);
    }
  }

  // ---------------------------------------------------------------------
  // strip, lower, prefixes, substrings, slicing

  function LStrip(s: string): (r: string)
    ensures r == [] || !IsSpace(r[0])
    decreases |s|
  {
    if s != [] && IsSpace(s[0]) then LStrip(s[1..]) else s
  }

  function RStrip(s: string): (r: string)
    ensures r == [] || !IsSpace(r[|r| - 1])
    decreases |s|
  {
    if s != [] && IsSpace(s[|s| - 1]) then RStrip(s[..|s| - 1]) else s
  }

  function Strip(s: string): string {
    RStrip(LStrip(s))
  }

  function LowerChar(c: char): char {
    if 'A' <= c <= 'Z' then (c as int + 32) as char else c
  }

  /** `s.lower()` on ASCII letters. */
  function Lower(s: string): (r: string)
    ensures |r| == |s|
  {
    if s == [] then [] else [LowerChar(s[0])] + Lower(s[1..])
  }

  /** `s.lower()` works character by character. */
  lemma {:induction false} LowerAt(s: string)
    ensures forall i :: 0 <= i < |s| ==> Lower(s)[i] == LowerChar(s[i])
    decreases |s|
  {
    if s != [] {
      LowerAt(s[1..]);
      assert forall i :: 1 <= i < |s| ==> Lower(s)[i] == Lower(s[1..])[i - 1];
    }
  }

  predicate StartsWith(s: string, p: string) {
    p <= s
  }

  /** `s.find(sub) != -1`. */
  predicate Contains(s: string, sub: string)
    decreases |s|
  {
    if sub <= s then true else if s == [] then false else Contains(s[1..], sub)
  }

  /** `s[:n]` for n >= 0. */
  function Take(s: string, n: nat): (r: string)
    ensures r <= s && |r| == if n < |s| then n else |s|
  {
    if n < |s| then s[..n] else s
  }

  function Spaces(n: nat): (r: string)
    ensures |r| == n && AllSpace(r)
    ensures forall i :: 0 <= i < n ==> r[i] == ' '
  {
    if n == 0 then "" else " " + Spaces(n - 1)
  }

  function Repeat(s: string, n: nat): string {
    if n == 0 then "" else s + Repeat(s, n - 1)
  }

  /** `s.replace(pat, rep)`: every non-overlapping occurrence, left to right. */
  function ReplaceAll(s: string, pat: string, rep: string): string
    requires pat != []
    decreases |s|
  {
    if s == [] then []
    else if pat <= s then rep + ReplaceAll(s[|pat|..], pat, rep)
    else [s[0]] + ReplaceAll(s[1..], pat, rep)
  }

  /** `s.replace(pat, rep, 1)`: the first occurrence only; an empty `pat`
      matches at the start. */
  function ReplaceFirst(s: string, pat: string, rep: string): string
    decreases |s|
  {
    if pat <= s then rep + s[|pat|..]
    else if s == [] then []
    else [s[0]] + ReplaceFirst(s[1..], pat, rep)
  }

  /** Python 2 `cmp` on byte strings. */
  function Cmp(a: string, b: string): int
    decreases |a|
  {
    if a == [] && b == [] then 0
    else if a == [] then -1
    else if b == [] then 1
    else if a[0] < b[0] then -1
    else if a[0] > b[0] then 1
    else Cmp(a[1..], b[1..])
  }

  lemma {:induction false} CmpAntisymmetric(a: string, b: string)
    ensures Cmp(a, b) == -Cmp(b, a)
    ensures Cmp(a, b) == 0 <==> a == b
    decreases |a|
  {
    if a != [] && b != [] && a[0] == b[0] {
      CmpAntisymmetric(a[1..], b[1..]);
      assert a == [a[0]] + a[1..] && b == [b[0]] + b[1..];
    }
  }

  /** `cmp` orders strings transitively: with antisymmetry, a total order. */
  lemma {:induction false} CmpTransitive(a: string, b: string, c: string)
    requires Cmp(a, b) <= 0 && Cmp(b, c) <= 0
    ensures Cmp(a, c) <= 0
    decreases |a|
  {
    if a != [] && b != [] && c != [] && a[0] == b[0] && b[0] == c[0] {
      CmpTransitive(a[1..], b[1..], c[1..]);
    }
  }

  // ---------------------------------------------------------------------
  // integers: repr / "%d", "%7d" and int()

  function DigitChar(d: nat): char
    requires d < 10
  {
    "0123456789"[d]
  }

  function DigitValue(c: char): nat
    requires IsDigit(c)
  {
    c as int - '0' as int
  }

  /** The decimal digits of n, as `repr(n)` writes them. */
  function NatToString(n: nat): string {
    if n < 10 then [DigitChar(n)] else NatToString(n / 10) + [DigitChar(n % 10)]
  }

  /** `"%d" % n`. */
  function IntToString(n: int): (s: string)
    ensures IsToken(s)
  {
    NatDigits(if n < 0 then -n else n);
    if n < 0 then "-" + NatToString(-n) else NatToString(n)
  }

  /** `"%7d" % n`: right-justified in a field of seven characters, wider when
      the number needs more. */
  function FormatWidth7(n: int): (s: string)
  {
    var d := IntToString(n);
    if |d| < 7 then Spaces(7 - |d|) + d else d
  }

  function DigitsValue(s: string): nat
    requires AllDigits(s)
  {
    if s == [] then 0 else DigitsValue(s[..|s| - 1]) * 10 + DigitValue(s[|s| - 1])
  }

  predicate AllDigits(s: string) {
    forall i :: 0 <= i < |s| ==> IsDigit(s[i])
  }

  /** `int(tok)` for a token: an optional sign and at least one decimal
      digit; anything else raises ValueError (None here). */
  function ParseInt(tok: string): Option<int> {
    if |tok| > 0 && (tok[0] == '-' || tok[0] == '+') then
      var ds := tok[1..];
      if |ds| > 0 && AllDigits(ds) then
        var v: int := DigitsValue(ds);
        Some(if tok[0] == '-' then -v else v)
      else None
    else if |tok| > 0 && AllDigits(tok) then Some(DigitsValue(tok))
    else None
  }

  lemma {:induction false} NatDigits(n: nat)
    ensures |NatToString(n)| >= 1 && AllDigits(NatToString(n))
  {
    if n >= 10 {
      NatDigits(n / 10);
      var s := NatToString(n);
      forall i | 0 <= i < |s|
        ensures IsDigit(s[i])
      {
        if i < |s| - 1 {
          assert s[i] == NatToString(n / 10)[i];
        }
      }
    }
  }

  lemma {:induction false} DigitsOfNat(n: nat)
    ensures AllDigits(NatToString(n)) && DigitsValue(NatToString(n)) == n
  {
    NatDigits(n);
    if n >= 10 {
      DigitsOfNat(n / 10);
      var s := NatToString(n);
      assert s[..|s| - 1] == NatToString(n / 10);
    }
  }

  /** `int("%d" % n) == n`. */
  lemma ParseIntToString(n: int)
    ensures ParseInt(IntToString(n)) == Some(n)
  {
    var tok := IntToString(n);
    if n < 0 {
      var ds := NatToString(-n);
      DigitsOfNat(-n);
      assert tok == "-" + ds && tok[0] == '-' && tok[1..] == ds;
      assert AllDigits(ds);
    } else {
      DigitsOfNat(n);
      assert IsDigit(tok[0]) && AllDigits(tok);
    }
  }

  /** A `"%7d"` field never holds a newline. */
  lemma Width7NoNewline(n: int)
    ensures NoChar(FormatWidth7(n), '\n')
  {
    var d := IntToString(n);
    if |d| < 7 {
      var sp := Spaces(7 - |d|);
      assert FormatWidth7(n) == sp + d;
      forall i | 0 <= i < |sp + d|
        ensures (sp + d)[i] != '\n'
      {
        if i >= |sp| {
          assert (sp + d)[i] == d[i - |sp|];
        }
      }
    }
  }

  lemma NoCharAppend(a: string, b: string, c: char)
    requires NoChar(a, c) && NoChar(b, c)
    ensures NoChar(a + b, c)
  {
    forall i | 0 <= i < |a + b|
      ensures (a + b)[i] != c
    {
      if i >= |a| {
        assert (a + b)[i] == b[i - |a|];
      }
    }
  }

  /** A text without newlines, closed by one, is a line. */
  lemma LineOf(body: string)
    requires NoChar(body, '\n')
    ensures IsLine(body + "\n")
  {
    assert (body + "\n")[..|body|] == body;
  }

  /** Whatever the padding, the words of a `"%7d"` field followed by
      whitespace start with the plain decimal form of the number. */
  lemma {:induction false} WordsWidth7(n: int, rest: string)
    requires rest == [] || IsSpace(rest[0])
    ensures Words(FormatWidth7(n) + rest) == [IntToString(n)] + Words(rest)
  {
    var d := IntToString(n);
    if |d| < 7 {
      SpacedToken(Spaces(7 - |d|), d, rest);
    } else {
      WordsToken(d, rest);
    }
  }

  // ---------------------------------------------------------------------
  // more about split(c), join and strip

  /** A string holding the separator splits into at least two pieces. */
  lemma {:induction false} SplitOnSeveral(s: string, c: char)
    requires !NoChar(s, c)
    ensures |SplitOn(s, c)| >= 2
    decreases |s|
  {
    if s[0] != c {
      assert !NoChar(s[1..], c) by {
        var i :| 0 <= i < |s| && s[i] == c;
        assert s[1..][i - 1] == c;
      }
      SplitOnSeveral(s[1..], c);
    }
  }

  /** The position of the first `c` in `s`, or `|s|`. */
  function FirstOf(s: string, c: char): (r: nat)
    ensures r <= |s| && NoChar(s[..r], c) && (r < |s| ==> s[r] == c)
    decreases |s|
  {
    if s == [] || s[0] == c then 0
    else
      var r := FirstOf(s[1..], c);
      assert s[..r + 1] == [s[0]] + s[1..][..r];
      r + 1
  }

  /** Splitting at a separator concatenates the pieces of both sides. */
  lemma {:induction false} SplitOnSep(a: string, c: char, b: string)
    ensures SplitOn(a + ([c] + b), c) == SplitOn(a, c) + SplitOn(b, c)
    decreases |a|
  {
    var i := FirstOf(a, c);
    var p := a[..i];
    if i == |a| {
      assert p == a;
      SplitOnPrefix(a, c, b);
      SplitOnFree(a, c);
    } else {
      var a2 := a[i + 1..];
      assert a == p + ([c] + a2);
      assert a + ([c] + b) == p + ([c] + (a2 + ([c] + b)));
      SplitOnSep(a2, c, b);
      SplitOnPrefix(p, c, a2 + ([c] + b));
      SplitOnPrefix(p, c, a2);
      assert [p] + (SplitOn(a2, c) + SplitOn(b, c)) == ([p] + SplitOn(a2, c)) + SplitOn(b, c);
    }
  }

  lemma {:induction false} JoinAppend(sep: string, parts: seq<string>, x: string)
    requires |parts| >= 1
    ensures Join(sep, parts + [x]) == Join(sep, parts) + sep + x
    decreases |parts|
  {
    if |parts| == 1 {
      assert (parts + [x])[1..] == [x];
    } else {
      assert (parts + [x])[1..] == parts[1..] + [x];
      JoinAppend(sep, parts[1..], x);
    }
  }

  lemma {:induction false} LStripSuffix(s: string)
    ensures exists k :: 0 <= k <= |s| && LStrip(s) == s[k..]
    decreases |s|
  {
    if s != [] && IsSpace(s[0]) {
      LStripSuffix(s[1..]);
      var k :| 0 <= k <= |s[1..]| && LStrip(s[1..]) == s[1..][k..];
      assert LStrip(s) == s[k + 1..];
    } else {
      assert LStrip(s) == s[0..];
    }
  }

  lemma {:induction false} RStripPrefix(s: string)
    ensures RStrip(s) <= s
    decreases |s|
  {
    if s != [] && IsSpace(s[|s| - 1]) {
      RStripPrefix(s[..|s| - 1]);
    }
  }

  /** Stripping never brings in a character that was not there. */
  lemma StripNoChar(s: string, c: char)
    requires NoChar(s, c)
    ensures NoChar(Strip(s), c)
  {
    LStripSuffix(s);
    var k :| 0 <= k <= |s| && LStrip(s) == s[k..];
    assert NoChar(LStrip(s), c) by {
      forall i | 0 <= i < |LStrip(s)|
        ensures LStrip(s)[i] != c
      {
        assert LStrip(s)[i] == s[k + i];
      }
    }
    RStripPrefix(LStrip(s));
  }

  /** No ASCII capital letter occurs in `s`. */
  predicate NoUpper(s: string) {
    forall i :: 0 <= i < |s| ==> !('A' <= s[i] <= 'Z')
  }

  /** `s.lower()` leaves no capital letter, and is the identity on a
      string without one. */
  lemma {:induction false} LowerNoUpper(s: string)
    ensures NoUpper(Lower(s))
    ensures NoUpper(s) ==> Lower(s) == s
  {
    LowerAt(s);
  }

  lemma {:induction false} LStripSpaces(sp: string, rest: string)
    requires AllSpace(sp)
    ensures LStrip(sp + rest) == LStrip(rest)
    decreases |sp|
  {
    if sp != [] {
      assert (sp + rest)[1..] == sp[1..] + rest;
      LStripSpaces(sp[1..], rest);
    } else {
      assert sp + rest == rest;
    }
  }

  /** Tokens joined by single spaces split back into those tokens. */
  lemma {:induction false} WordsJoin(ts: seq<string>)
    requires forall i :: 0 <= i < |ts| ==> IsToken(ts[i])
    ensures Words(Join(" ", ts)) == ts
    decreases |ts|
  {
    if |ts| == 0 {
    } else if |ts| == 1 {
      WordsToken(ts[0], "");
      assert ts[0] + "" == ts[0];
    } else {
      var t: Token := ts[0];
      var rest := Join(" ", ts[1..]);
      WordsJoin(ts[1..]);
      assert t + " " + rest == t + (" " + rest);
      WordsToken(t, " " + rest);
      WordsSkipSpace(" ", rest);
    }
  }

  /** A string without whitespace at either end is its own `strip()`. */
  lemma StripPlain(t: string)
    requires t != [] && !IsSpace(t[0]) && !IsSpace(t[|t| - 1])
    ensures Strip(t) == t
  {
    assert LStrip(t) == t;
  }

  lemma {:induction false} FirstOfAbsent(s: string, c: char)
    requires NoChar(s, c)
    ensures FirstOf(s, c) == |s|
    decreases |s|
  {
    if s != [] {
      FirstOfAbsent(s[1..], c);
    }
  }

  lemma {:induction false} FirstOfPrefix(p: string, c: char, tail: string)
    requires NoChar(p, c)
    ensures FirstOf(p + ([c] + tail), c) == |p|
    decreases |p|
  {
    if p != [] {
      assert (p + ([c] + tail))[1..] == p[1..] + ([c] + tail);
      FirstOfPrefix(p[1..], c, tail);
    } else {
      assert p + ([c] + tail) == [c] + tail;
    }
  }
}
