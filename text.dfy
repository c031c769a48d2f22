/**
 * The Python `str` operations the repository relies on, stated over `seq<char>`:
 * `split()` with no separator, `sep.join(...)`, `strip()`, `lower()` (ASCII letters only),
 * `replace(old, new)`, `splitlines()`, slicing `s[:n]`, `endswith` and `str(int)`.
 */
module Text {
  import Sequences

  /** The characters Python's argument-less `str.split()` and `str.strip()` treat as whitespace. */
  predicate IsSpace(c: char) {
    c == ' ' || c == '\t' || c == '\n' || c == '\r' || c == '\U{B}' || c == '\U{C}'
    || ('\U{1C}' <= c <= '\U{1F}') || c == '\U{85}' || c == '\U{A0}' || c == '\U{1680}'
    || ('\U{2000}' <= c <= '\U{200A}') || c == '\U{2028}' || c == '\U{2029}'
    || c == '\U{202F}' || c == '\U{205F}' || c == '\U{3000}'
  }

  /** A non-empty run of non-whitespace characters: what `split()` yields. */
  predicate IsWord(w: string) {
    w != "" && forall i :: 0 <= i < |w| ==> !IsSpace(w[i])
  }

  predicate AllWords(ws: seq<string>) {
    forall i :: 0 <= i < |ws| ==> IsWord(ws[i])
  }

  /** Leading whitespace removed. */
  function DropSpaces(s: string): (r: string)
    ensures |r| <= |s| && r == s[|s| - |r|..]
    ensures r == "" || !IsSpace(r[0])
    ensures forall i :: 0 <= i < |s| - |r| ==> IsSpace(s[i])
  {
    if s != "" && IsSpace(s[0]) then DropSpaces(s[1..]) else s
  }

  /** Trailing whitespace removed. */
  function DropSpacesRight(s: string): (r: string)
    ensures |r| <= |s| && r == s[..|r|]
    ensures r == "" || !IsSpace(r[|r| - 1])
    ensures forall i :: |r| <= i < |s| ==> IsSpace(s[i])
  {
    if s != "" && IsSpace(s[|s| - 1]) then DropSpacesRight(s[..|s| - 1]) else s
  }

  /** Python `s.strip()`. */
  function Strip(s: string): (r: string)
    ensures r == "" || (!IsSpace(r[0]) && !IsSpace(r[|r| - 1]))
    ensures |r| <= |DropSpaces(s)| && r == DropSpaces(s)[..|r|]
    ensures forall i :: |r| <= i < |DropSpaces(s)| ==> IsSpace(DropSpaces(s)[i])
  {
    DropSpacesRight(DropSpaces(s))
  }

  /** `strip()` leaves a string without surrounding whitespace as it is. */
  lemma StripUnpadded(s: string)
    requires s == "" || (!IsSpace(s[0]) && !IsSpace(s[|s| - 1]))
    ensures Strip(s) == s
  {
  }

  /** Length of the leading run of non-whitespace characters. */
  function WordLength(s: string): (n: nat)
    ensures n <= |s|
    ensures forall i :: 0 <= i < n ==> !IsSpace(s[i])
    ensures n < |s| ==> IsSpace(s[n])
  {
    if s != "" && !IsSpace(s[0]) then 1 + WordLength(s[1..]) else 0
  }

  /** Python `s.split()`: the maximal runs of non-whitespace characters, in order. */
  function Words(s: string): seq<string>
    decreases |s|
  {
    var t := DropSpaces(s);
    if t == "" then []
    else
      var n := WordLength(t);
      [t[..n]] + Words(t[n..])
  }

  /** Every item `split()` yields is a word. */
  lemma {:induction false} WordsAreWords(s: string)
    ensures AllWords(Words(s))
    decreases |s|
  {
    var t := DropSpaces(s);
    if t != "" {
      var n := WordLength(t);
      WordsAreWords(t[n..]);
    }
  }

  /** Python `sep.join(parts)`. */
  function JoinWith(sep: string, parts: seq<string>): string {
    if parts == [] then ""
    else if |parts| == 1 then parts[0]
    else parts[0] + sep + JoinWith(sep, parts[1..])
  }

  /** Python `" ".join(s.split())`: whitespace runs collapsed to one space, ends trimmed. */
  function NormalizeSpace(s: string): string {
    JoinWith(" ", Words(s))
  }

  /** The words of each part, concatenated in order. */
  function FlatWords(parts: seq<string>): seq<string> {
    if parts == [] then [] else Words(parts[0]) + FlatWords(parts[1..])
  }

  /** The whitespace normal form that `" ".join(s.split())` produces. */
  predicate IsNormalized(s: string) {
    && (forall i :: 0 <= i < |s| && IsSpace(s[i]) ==> s[i] == ' ')
    && (s != "" ==> !IsSpace(s[0]) && !IsSpace(s[|s| - 1]))
    && (forall i :: 0 <= i < |s| - 1 && s[i] == ' ' ==> s[i + 1] != ' ')
  }

  predicate IsLowerCase(s: string) {
    forall i :: 0 <= i < |s| ==> !('A' <= s[i] <= 'Z')
  }

  /* ---------------- split() / join ---------------- */

  lemma WordsOfSpaceLed(s: string)
    requires s != "" && IsSpace(s[0])
    ensures Words(s) == Words(s[1..])
  {
  }

  lemma WordsNoWords(s: string)
    requires forall i :: 0 <= i < |s| ==> IsSpace(s[i])
    ensures Words(s) == []
  {
  }

  lemma {:induction false} WordLengthAppend(a: string, x: string)
    ensures WordLength(a + x) == if WordLength(a) < |a| then WordLength(a) else |a| + WordLength(x)
  {
    if a == "" {
      assert a + x == x;
    } else if !IsSpace(a[0]) {
      assert (a + x)[1..] == a[1..] + x;
      WordLengthAppend(a[1..], x);
    }
  }

  lemma WordsOfWordLed(t: string)
    requires t != "" && !IsSpace(t[0])
    ensures WordLength(t) > 0
    ensures Words(t) == [t[..WordLength(t)]] + Words(t[WordLength(t)..])
  {
  }

  lemma WordsAppendSpaceEmpty(c: char, b: string)
    requires IsSpace(c)
    ensures Words("" + [c] + b) == Words(b)
  {
    var t := "" + [c] + b;
    WordsOfSpaceLed(t);
    assert t[1..] == b;
  }

  /** Slicing `a + [c] + b` inside `a`. */
  lemma ConcatSpaceSlices(a: string, c: char, b: string, n: nat)
    requires n <= |a|
    ensures (a + [c] + b)[..n] == a[..n]
    ensures (a + [c] + b)[n..] == a[n..] + [c] + b
    ensures n < |a| ==> (a + [c] + b)[n] == a[n]
  {
  }

  lemma WordsSpaceLedIs(t: string, u: string)
    requires t != "" && IsSpace(t[0]) && t[1..] == u
    ensures Words(t) == Words(u)
  {
    WordsOfSpaceLed(t);
  }

  lemma WordsAppendSpaceSpaceLed(a: string, c: char, b: string)
    requires a != "" && IsSpace(a[0])
    ensures Words(a + [c] + b) == Words(a[1..] + [c] + b)
  {
    ConcatSpaceSlices(a, c, b, 0);
    ConcatSpaceSlices(a, c, b, 1);
    WordsSpaceLedIs(a + [c] + b, a[1..] + [c] + b);
  }

  lemma WordLengthAppendSpace(a: string, c: char, b: string)
    requires a != "" && !IsSpace(a[0]) && IsSpace(c)
    ensures WordLength(a + [c] + b) == WordLength(a)
  {
    WordLengthAppend(a, [c] + b);
    assert a + [c] + b == a + ([c] + b);
    assert WordLength([c] + b) == 0;
  }

  lemma WordsWordLedIs(t: string, head: string, rest: string)
    requires t != "" && !IsSpace(t[0])
    requires t[..WordLength(t)] == head && t[WordLength(t)..] == rest
    ensures Words(t) == [head] + Words(rest)
  {
    WordsOfWordLed(t);
  }

  lemma WordsAppendSpaceWordLed(a: string, c: char, b: string)
    requires a != "" && !IsSpace(a[0]) && IsSpace(c)
    ensures Words(a + [c] + b) == [a[..WordLength(a)]] + Words(a[WordLength(a)..] + [c] + b)
  {
    WordLengthAppendSpace(a, c, b);
    var n := WordLength(a);
    ConcatSpaceSlices(a, c, b, 0);
    ConcatSpaceSlices(a, c, b, n);
    WordsWordLedIs(a + [c] + b, a[..n], a[n..] + [c] + b);
  }

  lemma WordsAppendSpaceStepSpace(a: string, c: char, b: string)
    requires a != "" && IsSpace(a[0])
    requires Words(a[1..] + [c] + b) == Words(a[1..]) + Words(b)
    ensures Words(a + [c] + b) == Words(a) + Words(b)
  {
    WordsAppendSpaceSpaceLed(a, c, b);
    WordsOfSpaceLed(a);
  }

  lemma WordsAppendSpaceStepWord(a: string, c: char, b: string)
    requires a != "" && !IsSpace(a[0]) && IsSpace(c)
    requires Words(a[WordLength(a)..] + [c] + b) == Words(a[WordLength(a)..]) + Words(b)
    ensures Words(a + [c] + b) == Words(a) + Words(b)
  {
    var n := WordLength(a);
    WordsAppendSpaceWordLed(a, c, b);
    WordsOfWordLed(a);
    ConsAssoc(a[..n], Words(a[n..]), Words(b));
  }

  /** `split()` breaks at any whitespace character: the words on either side of it, concatenated. */
  lemma {:induction false} WordsAppendSpaceChar(a: string, c: char, b: string)
    requires IsSpace(c)
    ensures Words(a + [c] + b) == Words(a) + Words(b)
    decreases |a|
  {
    if a == "" {
      WordsAppendSpaceEmpty(c, b);
    } else if IsSpace(a[0]) {
      WordsAppendSpaceChar(a[1..], c, b);
      WordsAppendSpaceStepSpace(a, c, b);
    } else {
      WordsAppendSpaceChar(a[WordLength(a)..], c, b);
      WordsAppendSpaceStepWord(a, c, b);
    }
  }

  /** `split()` turns a one-space join into a concatenation of word lists. */
  lemma WordsAppendSpace(a: string, b: string)
    ensures Words(a + " " + b) == Words(a) + Words(b)
  {
    WordsAppendSpaceChar(a, ' ', b);
    assert " " == [' '];
  }

  /** Leading whitespace does not change what `split()` yields. */
  lemma WordsDropSpaces(s: string)
    ensures Words(DropSpaces(s)) == Words(s)
  {
    var t := DropSpaces(s);
    assert DropSpaces(t) == t;
  }

  /** Trailing whitespace adds no word. */
  lemma WordsAppendSpaces(r: string, u: string)
    requires forall i :: 0 <= i < |u| ==> IsSpace(u[i])
    ensures Words(r + u) == Words(r)
  {
    if u == "" {
      WordsAppendEmpty(r, u);
    } else {
      AllSpaceTail(u);
      WordsNoWords(u[1..]);
      SplitHead(r, u);
      WordsAppendSpaceNoWords(r, u[0], u[1..]);
    }
  }

  lemma WordsAppendEmpty(r: string, u: string)
    requires u == ""
    ensures Words(r + u) == Words(r)
  {
    assert r + u == r;
  }

  lemma WordsAppendSpaceNoWords(r: string, c: char, rest: string)
    requires IsSpace(c) && Words(rest) == []
    ensures Words(r + [c] + rest) == Words(r)
  {
    WordsAppendSpaceChar(r, c, rest);
  }

  lemma AllSpaceTail(u: string)
    requires u != "" && forall i :: 0 <= i < |u| ==> IsSpace(u[i])
    ensures forall i :: 0 <= i < |u[1..]| ==> IsSpace(u[1..][i])
  {
    forall i | 0 <= i < |u[1..]| ensures IsSpace(u[1..][i]) {
      assert u[1..][i] == u[i + 1];
    }
  }

  lemma SplitHead(r: string, u: string)
    requires u != ""
    ensures r + u == r + [u[0]] + u[1..]
  {
  }

  /** Cutting off a whitespace-only tail keeps the words. */
  lemma WordsPrefixBeforeSpaces(t: string, n: nat)
    requires n <= |t|
    requires forall i :: n <= i < |t| ==> IsSpace(t[i])
    ensures Words(t[..n]) == Words(t)
  {
    SpaceSuffix(t, n);
    Sequences.SplitAt(t, n);
    WordsAppendSpaces(t[..n], t[n..]);
  }

  lemma SpaceSuffix(t: string, n: nat)
    requires n <= |t|
    requires forall i :: n <= i < |t| ==> IsSpace(t[i])
    ensures forall i :: 0 <= i < |t[n..]| ==> IsSpace(t[n..][i])
  {
    forall i | 0 <= i < |t[n..]| ensures IsSpace(t[n..][i]) {
      assert t[n..][i] == t[n + i];
    }
  }

  /** `split()` ignores what `strip()` removes: `s.strip().split() == s.split()`. */
  lemma WordsStrip(s: string)
    ensures Words(Strip(s)) == Words(s)
  {
    WordsDropSpaces(s);
    WordsPrefixBeforeSpaces(DropSpaces(s), |Strip(s)|);
  }

  lemma ConsAssoc<X>(w: X, y: seq<X>, z: seq<X>)
    ensures [w] + (y + z) == ([w] + y) + z
  {
  }

  lemma {:induction false} WordsOfJoin(parts: seq<string>)
    ensures Words(JoinWith(" ", parts)) == FlatWords(parts)
  {
    if parts == [] {
    } else if |parts| == 1 {
      assert FlatWords(parts[1..]) == [];
    } else {
      WordsAppendSpace(parts[0], JoinWith(" ", parts[1..]));
      WordsOfJoin(parts[1..]);
    }
  }

  lemma WordsOfWord(w: string)
    requires IsWord(w)
    ensures Words(w) == [w]
  {
    assert DropSpaces(w) == w;
    WordLengthAppend(w, "");
    assert w + "" == w;
    assert w[|w|..] == "";
  }

  lemma {:induction false} FlatWordsOfWords(ws: seq<string>)
    requires AllWords(ws)
    ensures FlatWords(ws) == ws
  {
    if ws != [] {
      WordsOfWord(ws[0]);
      FlatWordsOfWords(ws[1..]);
    }
  }

  /** Round trip: splitting a one-space join of words gives the words back. */
  lemma WordsOfJoinedWords(ws: seq<string>)
    requires AllWords(ws)
    ensures Words(JoinWith(" ", ws)) == ws
  {
    WordsOfJoin(ws);
    FlatWordsOfWords(ws);
  }

  /** Normalising twice is normalising once. */
  lemma NormalizeSpaceIdempotent(s: string)
    ensures NormalizeSpace(NormalizeSpace(s)) == NormalizeSpace(s)
    ensures Words(NormalizeSpace(s)) == Words(s)
  {
    WordsAreWords(s);
    WordsOfJoinedWords(Words(s));
  }

  /** A one-space join of words is in whitespace normal form. */
  lemma {:induction false} JoinedWordsNormalized(ws: seq<string>)
    requires AllWords(ws)
    ensures IsNormalized(JoinWith(" ", ws))
    ensures JoinWith(" ", ws) == "" <==> ws == []
  {
    if |ws| > 1 {
      JoinedWordsNormalized(ws[1..]);
      var w, j := ws[0], JoinWith(" ", ws[1..]);
      var s := w + " " + j;
      assert s == JoinWith(" ", ws);
      forall i | 0 <= i < |s| && IsSpace(s[i]) ensures s[i] == ' ' {
        if i > |w| { assert s[i] == j[i - |w| - 1]; }
      }
      forall i | 0 <= i < |s| - 1 && s[i] == ' ' ensures s[i + 1] != ' ' {
        if i > |w| { assert s[i] == j[i - |w| - 1] && s[i + 1] == j[i - |w|]; }
        if i == |w| { assert s[i + 1] == j[0]; }
      }
      assert s[|s| - 1] == j[|j| - 1];
    }
  }

  /** `" ".join(s.split())` is in normal form, and is empty exactly when `s` is all whitespace. */
  lemma NormalizeSpaceNormalized(s: string)
    ensures IsNormalized(NormalizeSpace(s))
    ensures NormalizeSpace(s) == "" <==> Words(s) == []
  {
    WordsAreWords(s);
    JoinedWordsNormalized(Words(s));
  }

  /** A string in normal form has nothing for `strip()` to remove. */
  lemma StripNormalized(s: string)
    requires IsNormalized(s)
    ensures Strip(s) == s
  {
  }

  /* ---------------- lower case is kept ---------------- */

  predicate AllLowerCase(ws: seq<string>) {
    forall i :: 0 <= i < |ws| ==> IsLowerCase(ws[i])
  }

  lemma LowerCaseSlices(s: string, n: nat)
    requires IsLowerCase(s) && n <= |s|
    ensures IsLowerCase(s[..n]) && IsLowerCase(s[n..])
  {
  }

  lemma AllLowerCaseCons(head: string, ws: seq<string>)
    requires IsLowerCase(head) && AllLowerCase(ws)
    ensures AllLowerCase([head] + ws)
  {
  }

  /** One step of `Words` on a string with a word after its leading whitespace. */
  lemma WordsUnfold(s: string)
    requires DropSpaces(s) != ""
    ensures var t := DropSpaces(s); var n := WordLength(t);
      Words(s) == [t[..n]] + Words(t[n..])
  {
  }

  lemma WordsLowerCaseStep(s: string)
    requires IsLowerCase(s) && DropSpaces(s) != ""
    requires AllLowerCase(Words(DropSpaces(s)[WordLength(DropSpaces(s))..]))
    ensures AllLowerCase(Words(s))
  {
    var t := DropSpaces(s);
    var n := WordLength(t);
    LowerCaseSlices(s, |s| - |t|);
    LowerCaseSlices(t, n);
    WordsUnfold(s);
    AllLowerCaseCons(t[..n], Words(t[n..]));
  }

  lemma {:induction false} WordsLowerCase(s: string)
    requires IsLowerCase(s)
    ensures AllLowerCase(Words(s))
    decreases |s|
  {
    var t := DropSpaces(s);
    if t != "" {
      var rest := t[WordLength(t)..];
      LowerCaseSlices(s, |s| - |t|);
      LowerCaseSlices(t, WordLength(t));
      WordsLowerCase(rest);
      WordsLowerCaseStep(s);
    }
  }

  lemma {:induction false} JoinLowerCase(ws: seq<string>)
    requires AllLowerCase(ws)
    ensures IsLowerCase(JoinWith(" ", ws))
  {
    if |ws| > 1 {
      JoinLowerCase(ws[1..]);
      var w, j := ws[0], JoinWith(" ", ws[1..]);
      forall i | 0 <= i < |w + " " + j| ensures !('A' <= (w + " " + j)[i] <= 'Z') {
        if i > |w| { assert (w + " " + j)[i] == j[i - |w| - 1]; }
      }
    }
  }

  /** Collapsing whitespace introduces no capital letter. */
  lemma NormalizeSpaceLowerCase(s: string)
    requires IsLowerCase(s)
    ensures IsLowerCase(NormalizeSpace(s))
  {
    WordsLowerCase(s);
    JoinLowerCase(Words(s));
  }

  /* ---------------- lower() ---------------- */

  function LowerChar(c: char): char {
    if 'A' <= c <= 'Z' then (c as int + 32) as char else c
  }

  /** Python `s.lower()`, restricted to the ASCII letters. */
  function Lower(s: string): (r: string)
    ensures |r| == |s| && IsLowerCase(r)
    ensures forall i :: 0 <= i < |s| && !('A' <= s[i] <= 'Z') ==> r[i] == s[i]
    ensures forall i :: 0 <= i < |s| && 'A' <= s[i] <= 'Z' ==> 'a' <= r[i] <= 'z'
  {
    seq(|s|, i requires 0 <= i < |s| => LowerChar(s[i]))
  }

  /** `lower()` leaves alone every character that is not a letter. */
  lemma LowerKeepsAbsent(s: string, c: char)
    requires c !in s && !('A' <= c <= 'Z') && !('a' <= c <= 'z')
    ensures c !in Lower(s)
  {
    var r := Lower(s);
    forall i | 0 <= i < |r| ensures r[i] != c {
      if !('A' <= s[i] <= 'Z') { assert r[i] == s[i]; }
    }
  }

  /* ---------------- replace(), slicing, affixes ---------------- */

  /** Python `s.replace(pat, rep)`: every non-overlapping occurrence, scanning left to right. */
  function ReplaceAll(s: string, pat: string, rep: string): (r: string)
    requires pat != ""
    ensures forall c :: c in r ==> c in s || c in rep
    ensures |pat| == 1 && pat[0] !in rep ==> pat[0] !in r
    decreases |s|
  {
    if |s| < |pat| then s
    else if s[..|pat|] == pat then rep + ReplaceAll(s[|pat|..], pat, rep)
    else [s[0]] + ReplaceAll(s[1..], pat, rep)
  }

  /**
   * Replacing a single character by a single character keeps the length and changes exactly
   * the positions that held that character.
   */
  lemma {:induction false} ReplaceCharPointwise(s: string, a: char, b: char)
    ensures |ReplaceAll(s, [a], [b])| == |s|
    ensures forall i :: 0 <= i < |s| ==> ReplaceAll(s, [a], [b])[i] == if s[i] == a then b else s[i]
    decreases |s|
  {
    if s != [] {
      ReplaceCharPointwise(s[1..], a, b);
      var r := ReplaceAll(s, [a], [b]);
      var tail := ReplaceAll(s[1..], [a], [b]);
      assert s[..1] == [s[0]];
      assert r == [if s[0] == a then b else s[0]] + tail;
      forall i | 0 < i < |s|
        ensures r[i] == if s[i] == a then b else s[i]
      {
        assert s[i] == s[1..][i - 1];
      }
    }
  }

  /** Python `s[:n]` for a non-negative `n`. */
  function Take<T>(s: seq<T>, n: nat): (r: seq<T>)
    ensures |r| == if |s| <= n then |s| else n
    ensures r == s[..|r|]
  {
    if |s| <= n then s else s[..n]
  }

  predicate EndsWith(s: string, suffix: string) {
    |suffix| <= |s| && s[|s| - |suffix|..] == suffix
  }

  predicate StartsWith(s: string, prefix: string) {
    |prefix| <= |s| && s[..|prefix|] == prefix
  }

  lemma StartsWithAppend(prefix: string, s: string)
    ensures StartsWith(prefix + s, prefix)
  {
    assert (prefix + s)[..|prefix|] == prefix;
  }

  lemma StartsWithSplit(s: string, prefix: string, rest: string)
    requires s == prefix + rest
    ensures StartsWith(s, prefix)
  {
    StartsWithAppend(prefix, rest);
  }

  lemma EndsWithAppend(s: string, suffix: string)
    ensures EndsWith(s + suffix, suffix)
  {
    assert (s + suffix)[|s + suffix| - |suffix|..] == suffix;
  }

  /* ---------------- str(int) ---------------- */

  function DigitChar(d: nat): (c: char)
    requires d < 10
    ensures '0' <= c <= '9'
  {
    "0123456789"[d]
  }

  function NatToString(n: nat): (r: string)
    ensures r != "" && forall i :: 0 <= i < |r| ==> '0' <= r[i] <= '9'
  {
    if n < 10 then [DigitChar(n)] else NatToString(n / 10) + [DigitChar(n % 10)]
  }

  /** Python `str(i)` for an integer: optional minus sign, then decimal digits. */
  function IntToString(i: int): (r: string)
    ensures r != "" && forall k :: 0 <= k < |r| ==> r[k] == '-' || '0' <= r[k] <= '9'
  {
    if i < 0 then "-" + NatToString(-i) else NatToString(i)
  }

  /* ---------------- splitlines() ---------------- */

  /** The line boundaries of Python's `str.splitlines()`. */
  predicate IsLineBreak(c: char) {
    c == '\n' || c == '\r' || c == '\U{B}' || c == '\U{C}' || c == '\U{1C}' || c == '\U{1D}'
    || c == '\U{1E}' || c == '\U{85}' || c == '\U{2028}' || c == '\U{2029}'
  }

  predicate IsOneLine(l: string) {
    forall j :: 0 <= j < |l| ==> !IsLineBreak(l[j])
  }

  function LineLength(s: string): (n: nat)
    ensures n <= |s| && IsOneLine(s[..n])
    ensures n < |s| ==> IsLineBreak(s[n])
  {
    if s != "" && !IsLineBreak(s[0]) then
      var n := 1 + LineLength(s[1..]);
      assert s[..n] == [s[0]] + s[1..][..n - 1];
      n
    else 0
  }

  /** Python `s.splitlines()`: `"\r\n"` is one boundary, and a final boundary adds no empty line. */
  function SplitLines(s: string): (lines: seq<string>)
    ensures forall i :: 0 <= i < |lines| ==> IsOneLine(lines[i])
    ensures s == "" <==> lines == []
    ensures s != "" && IsOneLine(s) ==> lines == [s]
    decreases |s|
  {
    if s == "" then []
    else
      var n := LineLength(s);
      if n == |s| then [s]
      else
        var skip := if s[n] == '\r' && n + 1 < |s| && s[n + 1] == '\n' then 2 else 1;
        [s[..n]] + SplitLines(s[n + skip..])
  }

  lemma OneLineSlices(s: string, n: nat)
    requires IsOneLine(s) && n <= |s|
    ensures IsOneLine(s[..n]) && IsOneLine(s[n..])
  {
  }

  /** `strip()` adds no character: one absent from `s` is absent from `s.strip()`. */
  lemma StripKeepsAbsent(s: string, c: char)
    requires c !in s
    ensures c !in Strip(s)
  {
  }

  /** `strip()` of a single line is a single line: its output is a slice of its input. */
  lemma StripOneLine(s: string)
    requires IsOneLine(s)
    ensures IsOneLine(Strip(s))
  {
    var t := DropSpaces(s);
    OneLineSlices(s, |s| - |t|);
    OneLineSlices(t, |Strip(s)|);
  }

  /** The first line of `a + rest` is `a` when `a` has no break and `rest` starts with one. */
  lemma LineLengthBefore(a: string, rest: string)
    requires IsOneLine(a) && rest != "" && IsLineBreak(rest[0])
    ensures LineLength(a + rest) == |a|
  {
    var s := a + rest;
    assert s[|a|] == rest[0];
  }

  /** A single-character boundary ends line `a`; `splitlines()` goes on with `b`. */
  lemma SplitLinesBreak(a: string, c: char, b: string)
    requires IsOneLine(a) && IsLineBreak(c)
    requires !(c == '\r' && b != "" && b[0] == '\n')
    ensures SplitLines(a + [c] + b) == [a] + SplitLines(b)
  {
    var s := a + [c] + b;
    assert s == a + ([c] + b);
    LineLengthBefore(a, [c] + b);
    assert s[|a|] == c;
    assert s[..|a|] == a;
    assert s[|a| + 1..] == b;
    if b != "" {
      assert s[|a| + 1] == b[0];
    }
  }

  /** `"\r\n"` is one boundary: line `a` ends and `splitlines()` goes on with `b`. */
  lemma SplitLinesCrLf(a: string, b: string)
    requires IsOneLine(a)
    ensures SplitLines(a + "\r\n" + b) == [a] + SplitLines(b)
  {
    var s := a + "\r\n" + b;
    assert s == a + ("\r\n" + b);
    LineLengthBefore(a, "\r\n" + b);
    assert s[|a|] == '\r' && s[|a| + 1] == '\n';
    assert s[..|a|] == a;
    assert s[|a| + 2..] == b;
  }
}
