/** The JavaScript string operations the core relies on, over `seq<char>`:
    `split` on one character, `join`, `trim`, `includes`, `replace` with a
    string pattern, ASCII `toLowerCase`, and integer-to-decimal conversion. */
module Strings {
  import opened Common

  // ---------------------------------------------------------------------------
  // split / join

  /** `s.split(sep)` for a one-character separator: always at least one piece,
      `""` splits into `[""]`, and no piece contains the separator. */
  function Split(s: string, sep: char): (parts: seq<string>)
    ensures |parts| >= 1
    ensures forall k :: 0 <= k < |parts| ==> sep !in parts[k]
    decreases |s|
  {
    var i := FirstIndex(s, sep);
    if i == |s| then [s] else [s[..i]] + Split(s[i + 1..], sep)
  }

  /** No piece of a split holds a character the whole does not hold. */
  lemma {:induction false} SplitAvoids(s: string, sep: char, c: char)
    requires c !in s
    ensures forall k :: 0 <= k < |Split(s, sep)| ==> c !in Split(s, sep)[k]
    decreases |s|
  {
    var i := FirstIndex(s, sep);
    if i < |s| {
      assert c !in s[..i];
      SplitAvoids(s[i + 1..], sep, c);
    }
  }

  /** `parts.join(sep)`. */
  function Join(parts: seq<string>, sep: string): string {
    if |parts| == 0 then ""
    else if |parts| == 1 then parts[0]
    else parts[0] + sep + Join(parts[1..], sep)
  }

  /** Joining a list of two or more pieces puts the separator after the
      first. */
  lemma JoinCons(x: string, rest: seq<string>, sep: string)
    requires |rest| >= 1
    ensures Join([x] + rest, sep) == x + sep + Join(rest, sep)
  {
    assert ([x] + rest)[1..] == rest;
  }

  /** The first occurrence of the separator ends the first piece. */
  lemma SplitConcat(a: string, sep: char, b: string)
    requires sep !in a
    ensures Split(a + [sep] + b, sep) == [a] + Split(b, sep)
  {
    var s := a + [sep] + b;
    FirstIndexConcat(a, sep, b);
    assert s[..|a|] == a && s[|a| + 1..] == b;
  }

  /** A string without the separator is its own only piece. */
  lemma SplitNone(s: string, sep: char)
    requires sep !in s
    ensures Split(s, sep) == [s]
  {
  }

  /** Joining the pieces of a split with the same separator gives back the
      original string. */
  lemma {:induction false} JoinSplit(s: string, sep: char)
    ensures Join(Split(s, sep), [sep]) == s
    decreases |s|
  {
    var i := FirstIndex(s, sep);
    if i < |s| {
      var rest := Split(s[i + 1..], sep);
      var parts := Split(s, sep);
      JoinSplit(s[i + 1..], sep);
      assert parts == [s[..i]] + rest;
      assert |parts| >= 2 && parts[0] == s[..i] && parts[1..] == rest;
      assert Join(parts, [sep]) == s[..i] + [sep] + Join(rest, [sep]);
      assert s == s[..i] + [sep] + s[i + 1..];
    }
  }

  /** Splitting a join of separator-free pieces gives back the pieces. */
  lemma {:induction false} SplitJoin(parts: seq<string>, sep: char)
    requires |parts| >= 1
    requires forall k :: 0 <= k < |parts| ==> sep !in parts[k]
    ensures Split(Join(parts, [sep]), sep) == parts
  {
    if |parts| == 1 {
      assert FirstIndex(parts[0], sep) == |parts[0]|;
    } else {
      SplitJoin(parts[1..], sep);
      SplitConcat(parts[0], sep, Join(parts[1..], [sep]));
      assert parts == [parts[0]] + parts[1..];
    }
  }

  /** A character of a join comes from the separator or from a piece. */
  lemma {:induction false} JoinChars(parts: seq<string>, sep: string, c: char)
    requires c in Join(parts, sep)
    ensures c in sep || exists k :: 0 <= k < |parts| && c in parts[k]
    decreases |parts|
  {
    if |parts| > 1 && c !in sep && c !in parts[0] {
      JoinChars(parts[1..], sep, c);
      var k :| 0 <= k < |parts[1..]| && c in parts[1..][k];
      assert c in parts[k + 1];
    }
  }

  /** A join of pieces that avoid a character avoids it too, when the
      separator does. */
  lemma {:induction false} JoinAvoids(parts: seq<string>, sep: string, c: char)
    requires c !in sep
    requires forall k :: 0 <= k < |parts| ==> c !in parts[k]
    ensures c !in Join(parts, sep)
  {
    if |parts| > 1 {
      JoinAvoids(parts[1..], sep, c);
    }
  }

  // ---------------------------------------------------------------------------
  // trim

  /** ECMAScript WhiteSpace and LineTerminator code points: what `trim`
      removes. */
  predicate IsSpace(c: char) {
    c == '\t' || c == '\n' || c == '\U{000B}' || c == '\U{000C}' || c == '\r'
    || c == ' ' || c == '\U{00A0}' || c == '\U{1680}'
    || ('\U{2000}' <= c <= '\U{200A}')
    || c == '\U{2028}' || c == '\U{2029}' || c == '\U{202F}' || c == '\U{205F}'
    || c == '\U{3000}' || c == '\U{FEFF}'
  }

  /** Neither end is white space. */
  predicate IsTrimmed(s: string) {
    |s| == 0 || (!IsSpace(s[0]) && !IsSpace(s[|s| - 1]))
  }

  /** The first position at or after `i` that does not hold white space. */
  function SkipStart(s: string, i: nat): (j: nat)
    requires i <= |s|
    ensures i <= j <= |s|
    ensures j < |s| ==> !IsSpace(s[j])
    decreases |s| - i
  {
    if i < |s| && IsSpace(s[i]) then SkipStart(s, i + 1) else i
  }

  /** The end of `s[i..j]` once the white space at its end is dropped. */
  function SkipEnd(s: string, i: nat, j: nat): (k: nat)
    requires i <= j <= |s|
    ensures i <= k <= j
    ensures k > i ==> !IsSpace(s[k - 1])
    decreases j
  {
    if j > i && IsSpace(s[j - 1]) then SkipEnd(s, i, j - 1) else j
  }

  /** `s.trim()`: white space is dropped from both ends, so the result has
      none at either end. */
  function Trim(s: string): (r: string)
    ensures IsTrimmed(r)
    ensures |r| <= |s|
  {
    var i := SkipStart(s, 0);
    s[i..SkipEnd(s, i, |s|)]
  }

  /** Everything `SkipStart` passes over is white space. */
  lemma {:induction false} SkipStartSpaces(s: string, i: nat)
    requires i <= |s|
    ensures forall k :: i <= k < SkipStart(s, i) ==> IsSpace(s[k])
    decreases |s| - i
  {
    if i < |s| && IsSpace(s[i]) {
      SkipStartSpaces(s, i + 1);
    }
  }

  /** Everything `SkipEnd` drops is white space. */
  lemma {:induction false} SkipEndSpaces(s: string, i: nat, j: nat)
    requires i <= j <= |s|
    ensures forall k :: SkipEnd(s, i, j) <= k < j ==> IsSpace(s[k])
    decreases j
  {
    if j > i && IsSpace(s[j - 1]) {
      SkipEndSpaces(s, i, j - 1);
    }
  }

  /** `trim` removes white space only: the input is some white space, the
      result, and some more white space. */
  lemma TrimSurround(s: string)
    ensures exists i, j :: 0 <= i <= j <= |s| && Trim(s) == s[i..j]
              && (forall k :: 0 <= k < i ==> IsSpace(s[k]))
              && (forall k :: j <= k < |s| ==> IsSpace(s[k]))
  {
    var i := SkipStart(s, 0);
    var j := SkipEnd(s, i, |s|);
    SkipStartSpaces(s, 0);
    SkipEndSpaces(s, i, |s|);
    assert Trim(s) == s[i..j];
  }

  /** `SkipStart` stops at the first non-space after a run of white space. */
  lemma {:induction false} SkipStartTo(s: string, i: nat, m: nat)
    requires i <= m <= |s|
    requires forall k :: i <= k < m ==> IsSpace(s[k])
    requires m == |s| || !IsSpace(s[m])
    ensures SkipStart(s, i) == m
    decreases m - i
  {
    if i < m {
      SkipStartTo(s, i + 1, m);
    }
  }

  /** Trimming adds no character. */
  lemma TrimAvoids(s: string, c: char)
    requires c !in s
    ensures c !in Trim(s)
  {
    var i := SkipStart(s, 0);
    assert Trim(s) == s[i..SkipEnd(s, i, |s|)];
  }

  /** Trimming a string that is already trimmed changes nothing. */
  lemma TrimTrimmed(s: string)
    requires IsTrimmed(s)
    ensures Trim(s) == s
  {
    SkipStartTo(s, 0, 0);
    assert s[0..|s|] == s;
  }

  /** Leading white space in front of a trimmed string is all `trim` removes. */
  lemma TrimAfterSpaces(w: string, x: string)
    requires forall k :: 0 <= k < |w| ==> IsSpace(w[k])
    requires IsTrimmed(x)
    ensures Trim(w + x) == x
  {
    var s := w + x;
    SkipStartTo(s, 0, |w|);
    if |x| > 0 {
      assert s[|s| - 1] == x[|x| - 1];
      assert SkipEnd(s, |w|, |s|) == |s|;
    }
    assert s[|w|..|s|] == x;
  }

  /** A string of white space only trims to the empty string. */
  lemma TrimAllSpaces(w: string)
    requires forall k :: 0 <= k < |w| ==> IsSpace(w[k])
    ensures Trim(w) == ""
  {
    TrimAfterSpaces(w, "");
    assert w + "" == w;
  }

  // ---------------------------------------------------------------------------
  // includes / indexOf / replace

  /** `pat` occurs in `s` starting at position `i`. */
  predicate OccursAt(s: string, pat: string, i: int) {
    0 <= i && i + |pat| <= |s| && s[i..i + |pat|] == pat
  }

  /** `s.indexOf(pat)`: the first position where `pat` occurs, or `None`. */
  function IndexOf(s: string, pat: string): (r: Option<nat>)
    ensures r.Some? ==> OccursAt(s, pat, r.value)
    ensures forall i :: 0 <= i && (r.None? || i < r.value) ==> !OccursAt(s, pat, i)
    decreases |s|
  {
    if |pat| > |s| then None
    else if s[..|pat|] == pat then Some(0)
    else
      var r := IndexOf(s[1..], pat);
      forall i | 1 <= i
        ensures OccursAt(s, pat, i) <==> OccursAt(s[1..], pat, i - 1)
      {
        if i + |pat| <= |s| {
          assert s[1..][i - 1..i - 1 + |pat|] == s[i..i + |pat|];
        }
      }
      match r
      case None => None
      case Some(j) => Some(j + 1)
  }

  /** `s.includes(sub)`. */
  predicate Includes(s: string, sub: string) {
    IndexOf(s, sub).Some?
  }

  /** `includes` holds exactly when the substring occurs somewhere. */
  lemma IncludesIff(s: string, sub: string)
    ensures Includes(s, sub) <==> exists i :: OccursAt(s, sub, i)
  {
  }

  /** A substring found in a part is found in the whole. */
  lemma IncludesInfix(a: string, s: string, b: string, sub: string)
    requires Includes(s, sub)
    ensures Includes(a + s + b, sub)
  {
    var i := IndexOf(s, sub).value;
    assert (a + s + b)[|a| + i..|a| + i + |sub|] == s[i..i + |sub|];
    assert OccursAt(a + s + b, sub, |a| + i);
  }

  /** `s.replace(pat, rep)` with a string pattern: only the first occurrence
      is replaced. (The `$` substitution patterns of `replace` are not
      modelled; the model only ever passes replacements free of `$`.) */
  function ReplaceFirst(s: string, pat: string, rep: string): string {
    match IndexOf(s, pat)
    case None => s
    case Some(i) => s[..i] + rep + s[i + |pat|..]
  }

  /** Without an occurrence the string is returned unchanged. Otherwise the
      first occurrence, at position `i`, is swapped for the replacement:
      everything before `i` and everything after the occurrence is kept, so
      the replacement occurs in the result. */
  lemma ReplaceFirstSpec(s: string, pat: string, rep: string)
    ensures !Includes(s, pat) ==> ReplaceFirst(s, pat, rep) == s
    ensures Includes(s, pat) ==>
              var i := IndexOf(s, pat).value;
              var r := ReplaceFirst(s, pat, rep);
              OccursAt(s, pat, i) && (forall j :: 0 <= j < i ==> !OccursAt(s, pat, j))
              && |r| == |s| - |pat| + |rep|
              && r[..i] == s[..i] && r[i..i + |rep|] == rep && r[i + |rep|..] == s[i + |pat|..]
    ensures Includes(s, pat) ==> Includes(ReplaceFirst(s, pat, rep), rep)
  {
    if Includes(s, pat) {
      var i := IndexOf(s, pat).value;
      var r := s[..i] + rep + s[i + |pat|..];
      assert r[..i] == s[..i];
      assert r[i..i + |rep|] == rep;
      assert r[i + |rep|..] == s[i + |pat|..];
      assert OccursAt(r, rep, i);
      IncludesIff(r, rep);
    }
  }

  // ---------------------------------------------------------------------------
  // toLowerCase (ASCII)

  function LowerChar(c: char): char {
    if 'A' <= c <= 'Z' then (c as int + 32) as char else c
  }

  /** `s.toLowerCase()` restricted to the ASCII letters. */
  function LowerAscii(s: string): (r: string)
    ensures |r| == |s|
    ensures forall k :: 0 <= k < |s| ==> r[k] == LowerChar(s[k])
    ensures forall k :: 0 <= k < |r| ==> !('A' <= r[k] <= 'Z')
  {
    seq(|s|, k requires 0 <= k < |s| => LowerChar(s[k]))
  }

  /** Lowering twice is lowering once. */
  lemma LowerIdempotent(s: string)
    ensures LowerAscii(LowerAscii(s)) == LowerAscii(s)
  {
  }

  // ---------------------------------------------------------------------------
  // decimal text of integers (JavaScript's `${n}` for integral numbers)

  predicate IsDigit(c: char) { '0' <= c <= '9' }

  predicate AllDigits(s: string) {
    forall k :: 0 <= k < |s| ==> IsDigit(s[k])
  }

  function DigitChar(d: nat): (c: char)
    requires d < 10
    ensures IsDigit(c)
  {
    ('0' as int + d) as char
  }

  function DigitValue(c: char): (d: nat)
    requires IsDigit(c)
    ensures d < 10 && DigitChar(d) == c
  {
    c as int - '0' as int
  }

  /** Decimal digits of `n`, most significant first, no leading zeros. */
  function NatToString(n: nat): (r: string)
    ensures |r| >= 1 && AllDigits(r)
    ensures |r| > 1 ==> r[0] != '0'
    decreases n
  {
    if n < 10 then [DigitChar(n)] else NatToString(n / 10) + [DigitChar(n % 10)]
  }

  /** The value of a run of decimal digits. */
  function ParseNat(s: string): nat
    requires AllDigits(s)
    decreases |s|
  {
    if |s| == 0 then 0 else 10 * ParseNat(s[..|s| - 1]) + DigitValue(s[|s| - 1])
  }

  /** Reading back the decimal text of a natural number gives the number. */
  lemma {:induction false} ParseNatToString(n: nat)
    ensures ParseNat(NatToString(n)) == n
    decreases n
  {
    if n >= 10 {
      var s := NatToString(n);
      ParseNatToString(n / 10);
      assert s[..|s| - 1] == NatToString(n / 10);
      assert DigitValue(s[|s| - 1]) == n % 10;
    }
  }

  /** `${i}` for an integral number: a minus sign for negatives. */
  function IntToString(i: int): (r: string)
    ensures |r| >= 1
    ensures 'x' !in r
  {
    if i < 0 then "-" + NatToString(-i) else NatToString(i)
  }

  /** Reads an optionally negative decimal integer; `None` for anything else. */
  function ParseInt(s: string): (r: Option<int>) {
    if |s| > 1 && s[0] == '-' && AllDigits(s[1..]) then Some(0 - ParseNat(s[1..]) as int)
    else if |s| > 0 && AllDigits(s) then Some(ParseNat(s))
    else None
  }

  /** Reading back the decimal text of an integer gives the integer. */
  lemma IntToStringRoundTrip(i: int)
    ensures ParseInt(IntToString(i)) == Some(i)
  {
    if i < 0 {
      ParseNegative(-i);
    } else {
      ParseNonNegative(i);
    }
  }

  lemma ParseNegative(n: nat)
    requires n > 0
    ensures ParseInt("-" + NatToString(n)) == Some(-(n as int))
  {
    var t := NatToString(n);
    var s := "-" + t;
    assert s[0] == '-' && s[1..] == t;
    ParseNatToString(n);
  }

  lemma ParseNonNegative(n: nat)
    ensures ParseInt(NatToString(n)) == Some(n)
  {
    var s := NatToString(n);
    assert IsDigit(s[0]);
    ParseNatToString(n);
  }
}
