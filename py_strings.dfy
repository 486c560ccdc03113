/**
  * The Python string operations the horoscope code relies on: `startswith`,
  * substring `in`, `replace`, `strip`, `lower`, `title`, `split`/`join`, string
  * ordering and the zero-padded numbers `strftime` writes. Case mappings cover
  * ASCII letters only.
  */
module PyStrings {

  /** `s.startswith(p)` */
  predicate StartsWith(s: string, p: string) {
    |p| <= |s| && s[..|p|] == p
  }

  /** Two prefixes of one string are prefixes of each other. */
  lemma PrefixesAgree(s: string, a: string, b: string)
    requires StartsWith(s, a) && StartsWith(s, b)
    ensures StartsWith(a, b) || StartsWith(b, a)
  {
    if |b| <= |a| {
      assert a[..|b|] == s[..|b|];
    } else {
      assert b[..|a|] == s[..|a|];
    }
  }

  /** `p in s` */
  predicate Contains(s: string, p: string)
    decreases |s|
  {
    StartsWith(s, p) || (|s| > 0 && Contains(s[1..], p))
  }

  lemma {:induction false} ContainsAt(s: string, p: string, i: nat)
    requires i + |p| <= |s| && s[i..i + |p|] == p
    ensures Contains(s, p)
  {
    if i > 0 {
      assert s[1..][i - 1..i - 1 + |p|] == s[i..i + |p|];
      ContainsAt(s[1..], p, i - 1);
    }
  }

  /** A match has a position: the converse of `ContainsAt`. */
  lemma {:induction false} ContainsWitness(s: string, p: string) returns (i: nat)
    requires Contains(s, p)
    ensures i + |p| <= |s| && s[i..i + |p|] == p
    decreases |s|
  {
    if StartsWith(s, p) {
      i := 0;
    } else {
      var j := ContainsWitness(s[1..], p);
      assert s[1..][j..j + |p|] == s[j + 1..j + 1 + |p|];
      i := j + 1;
    }
  }

  /** A match found in `s` is still found once text is appended. */
  lemma {:induction false} ContainsExtend(s: string, u: string, p: string)
    requires Contains(s, p)
    ensures Contains(s + u, p)
  {
    if StartsWith(s, p) {
      assert (s + u)[..|p|] == s[..|p|];
    } else {
      assert (s + u)[1..] == s[1..] + u;
      ContainsExtend(s[1..], u, p);
    }
  }

  lemma {:induction false} NothingInEmpty(p: string)
    requires p != []
    ensures !Contains([], p)
  {
  }

  /** `str.isspace()` for one character. */
  predicate IsSpace(c: char) {
    c == ' ' || c == '\t' || c == '\n' || c == '\r' || c == '\U{0B}' || c == '\U{0C}'
    || ('\U{1C}' <= c <= '\U{1F}') || c == '\U{85}' || c == '\U{A0}' || c == '\U{1680}'
    || ('\U{2000}' <= c <= '\U{200A}') || c == '\U{2028}' || c == '\U{2029}'
    || c == '\U{202F}' || c == '\U{205F}' || c == '\U{3000}'
  }

  function LStrip(s: string): (r: string)
    ensures r == [] || !IsSpace(r[0])
    ensures forall c :: c in r ==> c in s
    ensures s == [] || !IsSpace(s[0]) ==> r == s
  {
    if s != [] && IsSpace(s[0]) then LStrip(s[1..]) else s
  }

  function RStrip(s: string): (r: string)
    ensures r == [] || !IsSpace(r[|r| - 1])
    ensures forall c :: c in r ==> c in s
    ensures s == [] || !IsSpace(s[|s| - 1]) ==> r == s
    ensures s != [] && !IsSpace(s[0]) ==> r != [] && r[0] == s[0]
  {
    if s != [] && IsSpace(s[|s| - 1]) then RStrip(s[..|s| - 1]) else s
  }

  /** `s.strip()`: removes leading and trailing whitespace. */
  function Strip(s: string): (r: string)
    ensures r == [] || (!IsSpace(r[0]) && !IsSpace(r[|r| - 1]))
    ensures forall c :: c in r ==> c in s
    ensures s == [] || (!IsSpace(s[0]) && !IsSpace(s[|s| - 1])) ==> r == s
  {
    RStrip(LStrip(s))
  }

  /** `s.replace(a, b)` for single characters `a` and `b`. */
  function ReplaceChar(s: string, a: char, b: char): string {
    seq(|s|, i requires 0 <= i < |s| => if s[i] == a then b else s[i])
  }

  /** `s.replace(c, "")` */
  function RemoveChar(s: string, c: char): (r: string)
    ensures c !in r
    ensures forall x :: x in r ==> x in s
    ensures c !in s ==> r == s
  {
    if s == [] then []
    else (if s[0] == c then [] else [s[0]]) + RemoveChar(s[1..], c)
  }

  /** `replace(c, "")` of one character: the character is kept exactly when it is not `c`. */
  lemma RemoveCharOne(x: char, c: char)
    ensures RemoveChar([x], c) == if x == c then [] else [x]
  {
    assert [x][1..] == [];
  }

  /** `replace(c, "")` works piece by piece: removing from two pieces is removing from each, in order. */
  lemma {:induction false} RemoveCharAppend(a: string, b: string, c: char)
    ensures RemoveChar(a + b, c) == RemoveChar(a, c) + RemoveChar(b, c)
    decreases |a|
  {
    if a == [] {
      assert a + b == b;
    } else {
      assert (a + b)[0] == a[0] && (a + b)[1..] == a[1..] + b;
      RemoveCharAppend(a[1..], b, c);
      ConsAssoc(if a[0] == c then [] else [a[0]], RemoveChar(a[1..], c), RemoveChar(b, c));
    }
  }

  function Spaces(n: nat): (r: string)
    ensures |r| == n && forall c :: c in r ==> c == ' '
  {
    seq(n, _ => ' ')
  }

  predicate NoDoubleSpace(s: string) {
    forall i :: 0 <= i < |s| - 1 ==> !(s[i] == ' ' && s[i + 1] == ' ')
  }

  /**
    * `s.replace("  ", " ")`: one left-to-right pass over non-overlapping
    * occurrences, so a run of spaces is halved rather than collapsed.
    */
  function ReplaceDoubleSpaces(s: string): string
    decreases |s|
  {
    if |s| >= 2 && s[0] == ' ' && s[1] == ' ' then " " + ReplaceDoubleSpaces(s[2..])
    else if s == [] then []
    else [s[0]] + ReplaceDoubleSpaces(s[1..])
  }

  /** The rewrite only drops spaces: every character of the result comes from the text. */
  lemma {:induction false} ReplaceDoubleSpacesKeepsChars(s: string)
    ensures forall c :: c in ReplaceDoubleSpaces(s) ==> c in s
    decreases |s|
  {
    if |s| >= 2 && s[0] == ' ' && s[1] == ' ' {
      ReplaceDoubleSpacesKeepsChars(s[2..]);
    } else if s != [] {
      ReplaceDoubleSpacesKeepsChars(s[1..]);
    }
  }

  /** Text without a double space comes back unchanged. */
  lemma {:induction false} ReplaceDoubleSpacesNoDouble(s: string)
    requires NoDoubleSpace(s)
    ensures ReplaceDoubleSpaces(s) == s
    decreases |s|
  {
    if s != [] {
      var t := s[1..];
      assert NoDoubleSpace(t) by {
        forall i | 0 <= i < |t| - 1 ensures !(t[i] == ' ' && t[i + 1] == ' ') {
          assert t[i] == s[i + 1] && t[i + 1] == s[i + 2];
        }
      }
      ReplaceDoubleSpacesNoDouble(t);
      assert s == [s[0]] + t;
    }
  }

  /** Text that does not end in a space is rewritten independently of what follows it. */
  lemma {:induction false} ReplaceDoubleSpacesAppend(a: string, x: string)
    requires a == [] || a[|a| - 1] != ' '
    ensures ReplaceDoubleSpaces(a + x) == ReplaceDoubleSpaces(a) + ReplaceDoubleSpaces(x)
    decreases |a|
  {
    if a == [] {
      assert a + x == x;
    } else if |a| >= 2 && a[0] == ' ' && a[1] == ' ' {
      ReplaceDoubleSpacesAppend(a[2..], x);
      PairStepAppend(a, x);
    } else {
      ReplaceDoubleSpacesAppend(a[1..], x);
      CharStepAppend(a, x);
    }
  }

  /** The pair step of `ReplaceDoubleSpacesAppend`. */
  lemma PairStepAppend(a: string, x: string)
    requires |a| >= 2 && a[0] == ' ' && a[1] == ' '
    requires ReplaceDoubleSpaces(a[2..] + x) == ReplaceDoubleSpaces(a[2..]) + ReplaceDoubleSpaces(x)
    ensures ReplaceDoubleSpaces(a + x) == ReplaceDoubleSpaces(a) + ReplaceDoubleSpaces(x)
  {
    PairPrefix(a, x);
    UnfoldPair(a);
    ConsAssoc(" ", ReplaceDoubleSpaces(a[2..]), ReplaceDoubleSpaces(x));
  }

  /** The single-character step of `ReplaceDoubleSpacesAppend`. */
  lemma CharStepAppend(a: string, x: string)
    requires a != [] && a[|a| - 1] != ' '
    requires !(|a| >= 2 && a[0] == ' ' && a[1] == ' ')
    requires ReplaceDoubleSpaces(a[1..] + x) == ReplaceDoubleSpaces(a[1..]) + ReplaceDoubleSpaces(x)
    ensures ReplaceDoubleSpaces(a + x) == ReplaceDoubleSpaces(a) + ReplaceDoubleSpaces(x)
  {
    CharPrefix(a, x);
    UnfoldChar(a);
    ConsAssoc([a[0]], ReplaceDoubleSpaces(a[1..]), ReplaceDoubleSpaces(x));
  }

  /** A leading pair of `a` stays a leading pair of `a + x`. */
  lemma PairPrefix(a: string, x: string)
    requires |a| >= 2 && a[0] == ' ' && a[1] == ' '
    ensures ReplaceDoubleSpaces(a + x) == " " + ReplaceDoubleSpaces(a[2..] + x)
  {
    var y := a + x;
    assert y[2..] == a[2..] + x;
    UnfoldPair(y);
  }

  /** A leading character of `a` that starts no pair keeps starting none in `a + x`. */
  lemma CharPrefix(a: string, x: string)
    requires a != [] && a[|a| - 1] != ' '
    requires !(|a| >= 2 && a[0] == ' ' && a[1] == ' ')
    ensures ReplaceDoubleSpaces(a + x) == [a[0]] + ReplaceDoubleSpaces(a[1..] + x)
  {
    var y := a + x;
    assert y[0] == a[0] && y[1..] == a[1..] + x;
    assert !(|y| >= 2 && y[0] == ' ' && y[1] == ' ') by {
      if |a| >= 2 { assert y[1] == a[1]; }
    }
    UnfoldChar(y);
  }

  lemma ConsAssoc(c: string, p: string, q: string)
    ensures c + (p + q) == (c + p) + q
  {
  }

  lemma UnfoldPair(y: string)
    requires |y| >= 2 && y[0] == ' ' && y[1] == ' '
    ensures ReplaceDoubleSpaces(y) == " " + ReplaceDoubleSpaces(y[2..])
  {
  }

  lemma UnfoldChar(y: string)
    requires y != [] && !(|y| >= 2 && y[0] == ' ' && y[1] == ' ')
    ensures ReplaceDoubleSpaces(y) == [y[0]] + ReplaceDoubleSpaces(y[1..])
  {
  }

  /** A run of `n` spaces followed by a non-space becomes `ceil(n/2)` spaces. */
  lemma {:induction false} ReplaceDoubleSpacesRun(n: nat, b: string)
    requires b == [] || b[0] != ' '
    ensures ReplaceDoubleSpaces(Spaces(n) + b) == Spaces((n + 1) / 2) + ReplaceDoubleSpaces(b)
  {
    if n >= 2 {
      ReplaceDoubleSpacesPair(n, b);
      ReplaceDoubleSpacesRun(n - 2, b);
      assert " " + Spaces((n - 1) / 2) == Spaces((n + 1) / 2);
    } else if n == 1 {
      var s := Spaces(1) + b;
      assert s[0] == ' ' && s[1..] == b;
    } else {
      assert Spaces(0) + b == b;
    }
  }

  /** A leading pair of spaces becomes one space. */
  lemma ReplaceDoubleSpacesPair(n: nat, b: string)
    requires n >= 2
    ensures ReplaceDoubleSpaces(Spaces(n) + b) == " " + ReplaceDoubleSpaces(Spaces(n - 2) + b)
  {
    var s := Spaces(n) + b;
    assert s[0] == ' ' && s[1] == ' ';
    assert s[2..] == Spaces(n - 2) + b;
  }

  predicate IsAsciiUpper(c: char) { 'A' <= c <= 'Z' }
  predicate IsAsciiLower(c: char) { 'a' <= c <= 'z' }
  predicate IsAsciiLetter(c: char) { IsAsciiUpper(c) || IsAsciiLower(c) }

  function LowerChar(c: char): char {
    if IsAsciiUpper(c) then (c as int + 32) as char else c
  }

  function UpperChar(c: char): char {
    if IsAsciiLower(c) then (c as int - 32) as char else c
  }

  /** `s.lower()` */
  function Lower(s: string): string {
    seq(|s|, i requires 0 <= i < |s| => LowerChar(s[i]))
  }

  /** `s.title()`: a letter is upper-cased after a non-letter and lower-cased after a letter. */
  function Title(s: string): (r: string)
    ensures |r| == |s|
    ensures forall i :: 0 <= i < |s| ==> (IsAsciiLetter(r[i]) <==> IsAsciiLetter(s[i]))
  {
    seq(|s|, i requires 0 <= i < |s| =>
      if !IsAsciiLetter(s[i]) then s[i]
      else if i == 0 || !IsAsciiLetter(s[i - 1]) then UpperChar(s[i])
      else LowerChar(s[i]))
  }

  /** `sep.join(parts)` for a one-character separator. */
  function Join(parts: seq<string>, sep: char): string {
    if parts == [] then ""
    else if |parts| == 1 then parts[0]
    else parts[0] + [sep] + Join(parts[1..], sep)
  }

  /** `s.split(sep)` for a one-character separator: empty fields are kept. */
  function Split(s: string, sep: char): (parts: seq<string>)
    ensures |parts| > 0
    ensures forall p :: p in parts ==> sep !in p
  {
    if s == [] then [""]
    else if s[0] == sep then [""] + Split(s[1..], sep)
    else
      var rest := Split(s[1..], sep);
      [[s[0]] + rest[0]] + rest[1..]
  }

  /** Joining the fields of a split gives the string back. */
  lemma {:induction false} JoinSplit(s: string, sep: char)
    ensures Join(Split(s, sep), sep) == s
  {
    if s != [] {
      JoinSplit(s[1..], sep);
      var rest := Split(s[1..], sep);
      if s[0] == sep {
        JoinAfterEmpty(rest, sep);
      } else {
        JoinPrependChar(s[0], rest, sep);
      }
      assert s == [s[0]] + s[1..];
    }
  }

  /** A leading empty field joins as a leading separator. */
  lemma JoinAfterEmpty(parts: seq<string>, sep: char)
    requires |parts| > 0
    ensures Join([""] + parts, sep) == [sep] + Join(parts, sep)
  {
    assert ([""] + parts)[1..] == parts;
  }

  /** A character put in front of the first field comes first in the join. */
  lemma JoinPrependChar(c: char, parts: seq<string>, sep: char)
    requires |parts| > 0
    ensures Join([[c] + parts[0]] + parts[1..], sep) == [c] + Join(parts, sep)
  {
    var q := [[c] + parts[0]] + parts[1..];
    if |parts| > 1 {
      assert q[1..] == parts[1..];
    }
  }

  /** Splitting a join of fields free of the separator gives the fields back. */
  lemma {:induction false} SplitJoin(parts: seq<string>, sep: char)
    requires |parts| > 0
    requires forall p :: p in parts ==> sep !in p
    ensures Split(Join(parts, sep), sep) == parts
  {
    if |parts| == 1 {
      SplitNoSeparator(parts[0], sep);
    } else {
      SplitJoin(parts[1..], sep);
      SplitPrefix(parts[0], Join(parts[1..], sep), sep);
      assert parts == [parts[0]] + parts[1..];
    }
  }

  lemma {:induction false} SplitNoSeparator(s: string, sep: char)
    requires sep !in s
    ensures Split(s, sep) == [s]
  {
    if s != [] {
      SplitNoSeparator(s[1..], sep);
      assert [s[0]] + s[1..] == s;
    }
  }

  lemma {:induction false} SplitPrefix(a: string, b: string, sep: char)
    requires sep !in a
    ensures Split(a + [sep] + b, sep) == [a] + Split(b, sep)
  {
    if a == [] {
      assert a + [sep] + b == [sep] + b;
      assert ([sep] + b)[1..] == b;
    } else {
      assert (a + [sep] + b)[1..] == a[1..] + [sep] + b;
      SplitPrefix(a[1..], b, sep);
      assert [a[0]] + a[1..] == a;
    }
  }

  /** A join ends with its last field, preceded by the separator when there are several. */
  lemma {:induction false} JoinEndsWithLast(parts: seq<string>, sep: char)
    requires |parts| > 0
    ensures var j, last := Join(parts, sep), parts[|parts| - 1];
      |last| <= |j| && j[|j| - |last|..] == last &&
      (|parts| > 1 ==> |last| < |j| && j[|j| - |last| - 1] == sep)
  {
    if |parts| > 1 {
      var rest := Join(parts[1..], sep);
      JoinEndsWithLast(parts[1..], sep);
      var j := Join(parts, sep);
      assert j == (parts[0] + [sep]) + rest;
      assert j[|j| - |rest|..] == rest;
    }
  }

  /**
    * `s.split(sep)[-1]`: the last field holds no separator, ends the string,
    * and is the whole string or follows a separator.
    */
  lemma SplitLastField(s: string, sep: char)
    ensures var parts := Split(s, sep);
      var last := parts[|parts| - 1];
      sep !in last && |last| <= |s| && s[|s| - |last|..] == last &&
      (|last| < |s| ==> s[|s| - |last| - 1] == sep)
  {
    var parts := Split(s, sep);
    JoinSplit(s, sep);
    JoinEndsWithLast(parts, sep);
    assert parts[|parts| - 1] in parts;
  }

  /** Python's `a <= b` on strings: lexicographic order of code points. */
  predicate LexLe(a: string, b: string) {
    a == [] || (b != [] && (a[0] < b[0] || (a[0] == b[0] && LexLe(a[1..], b[1..]))))
  }

  lemma {:induction false} LexLeTotal(a: string, b: string)
    ensures LexLe(a, b) || LexLe(b, a)
  {
    if a != [] && b != [] && a[0] == b[0] {
      LexLeTotal(a[1..], b[1..]);
    }
  }

  lemma {:induction false} LexLeReflexive(a: string)
    ensures LexLe(a, a)
  {
    if a != [] {
      LexLeReflexive(a[1..]);
    }
  }

  lemma {:induction false} LexLeTrans(a: string, b: string, c: string)
    requires LexLe(a, b) && LexLe(b, c)
    ensures LexLe(a, c)
  {
    if a != [] && a[0] == b[0] && b[0] == c[0] {
      LexLeTrans(a[1..], b[1..], c[1..]);
    }
  }

  /** `sorted(xs, reverse=True)[0]`: a greatest string of a non-empty list. */
  function Greatest(xs: seq<string>): (r: string)
    requires |xs| > 0
    ensures r in xs
    ensures forall x :: x in xs ==> LexLe(x, r)
  {
    if |xs| == 1 then
      LexLeReflexive(xs[0]);
      xs[0]
    else
      var m := Greatest(xs[1..]);
      assert forall x :: x in xs ==> x == xs[0] || x in xs[1..];
      LexLeReflexive(xs[0]);
      if LexLe(m, xs[0]) then
        assert forall x :: x in xs[1..] ==> LexLe(x, xs[0]) by {
          forall x | x in xs[1..] ensures LexLe(x, xs[0]) {
            LexLeTrans(x, m, xs[0]);
          }
        }
        xs[0]
      else
        LexLeTotal(xs[0], m);
        LexLeReflexive(m);
        m
  }

  function Pow10(w: nat): (p: nat)
    ensures p >= 1
  {
    if w == 0 then 1 else 10 * Pow10(w - 1)
  }

  function DigitChar(d: nat): char
    requires d < 10
  {
    ('0' as int + d) as char
  }

  /** `n` written in decimal on exactly `w` digits, padded with zeros (`%02d`, `%04d`). */
  function PadDigits(n: nat, w: nat): (s: string)
    requires n < Pow10(w)
    ensures |s| == w
    ensures forall c :: c in s ==> '0' <= c <= '9'
  {
    if w == 0 then "" else PadDigits(n / 10, w - 1) + [DigitChar(n % 10)]
  }

  /** `str(n)`: decimal digits without leading zeros, read back as `n`. */
  function DecimalString(n: nat): (s: string)
    ensures s != [] && forall c :: c in s ==> '0' <= c <= '9'
    ensures DigitsValue(s) == n
    decreases n
  {
    if n < 10 then [DigitChar(n)]
    else
      var s := DecimalString(n / 10) + [DigitChar(n % 10)];
      assert s[..|s| - 1] == DecimalString(n / 10);
      s
  }

  /** The number a string of decimal digits denotes. */
  function DigitsValue(s: string): nat {
    if s == [] then 0
    else
      var c := s[|s| - 1];
      DigitsValue(s[..|s| - 1]) * 10 + (if '0' <= c <= '9' then c as int - '0' as int else 0)
  }

  /** Reading back a zero-padded number gives the number. */
  lemma {:induction false} PadDigitsRoundTrip(n: nat, w: nat)
    requires n < Pow10(w)
    ensures DigitsValue(PadDigits(n, w)) == n
  {
    if w > 0 {
      PadDigitsRoundTrip(n / 10, w - 1);
      var s := PadDigits(n, w);
      assert s[..|s| - 1] == PadDigits(n / 10, w - 1);
    }
  }

  lemma PadDigitsInjective(a: nat, b: nat, w: nat)
    requires a < Pow10(w) && b < Pow10(w)
    requires PadDigits(a, w) == PadDigits(b, w)
    ensures a == b
  {
    PadDigitsRoundTrip(a, w);
    PadDigitsRoundTrip(b, w);
  }
}
