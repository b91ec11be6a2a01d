/** String operations behind the ORM's `icontains` lookup and the analytics
    tokenisers (`str.lower`, `str.split`, `re.findall(r'\b\w+\b')`). */
module Text {

  /** Case folding of one character. Only the ASCII letters fold, as in the
      `LIKE` operator of SQLite. */
  function LowerChar(c: char): char {
    if 'A' <= c <= 'Z' then (c as int + 32) as char else c
  }

  predicate IsUpper(c: char) {
    'A' <= c <= 'Z'
  }

  /** `s.lower()`. */
  function Lower(s: string): (r: string)
    ensures |r| == |s|
  {
    seq(|s|, i requires 0 <= i < |s| => LowerChar(s[i]))
  }

  /** A folded string contains no upper-case letter and folding it again changes nothing. */
  lemma LowerIsLower(s: string)
    ensures forall i :: 0 <= i < |s| ==> !IsUpper(Lower(s)[i])
    ensures Lower(Lower(s)) == Lower(s)
  {
  }

  /** `q` occurs in `s` at position `i`. */
  ghost predicate OccursAt(s: string, q: string, i: int) {
    0 <= i && i + |q| <= |s| && s[i..i + |q|] == q
  }

  /** The SQL `LIKE '%q%'` test, by scanning `s` from the left. */
  predicate Contains(s: string, q: string)
    decreases |s|
  {
    if |q| > |s| then false
    else if s[..|q|] == q then true
    else Contains(s[1..], q)
  }

  /** The scan finds `q` exactly when `q` occurs somewhere in `s`. */
  lemma {:induction false} ContainsIff(s: string, q: string)
    ensures Contains(s, q) <==> exists i :: OccursAt(s, q, i)
    decreases |s|
  {
    if |q| > |s| {
      forall i ensures !OccursAt(s, q, i) { }
    } else if s[..|q|] == q {
      assert s[0..|q|] == s[..|q|];
      assert OccursAt(s, q, 0);
    } else {
      ContainsIff(s[1..], q);
      if Contains(s[1..], q) {
        var j :| OccursAt(s[1..], q, j);
        assert s[j + 1..j + 1 + |q|] == s[1..][j..j + |q|];
        assert OccursAt(s, q, j + 1);
      } else {
        assert s[0..|q|] == s[..|q|];
        forall i | OccursAt(s, q, i) ensures OccursAt(s[1..], q, i - 1) {
          assert i != 0;
          assert s[1..][i - 1..i - 1 + |q|] == s[i..i + |q|];
        }
      }
    }
  }

  /** Django's `field__icontains=q`: case-insensitive substring test. */
  predicate IContains(s: string, q: string) {
    Contains(Lower(s), Lower(q))
  }

  /** `a <= b` under SQLite's default `BINARY` collation. The UTF-8 bytes
      are compared in turn, which orders strings by code point, with a
      proper prefix first. */
  predicate LexLe(a: string, b: string) {
    a == [] || (b != [] && (a[0] < b[0] || (a[0] == b[0] && LexLe(a[1..], b[1..]))))
  }

  /** Any two strings are comparable. */
  lemma {:induction false} LexLeTotal(a: string, b: string)
    ensures LexLe(a, b) || LexLe(b, a)
  {
    if a != [] && b != [] && a[0] == b[0] {
      LexLeTotal(a[1..], b[1..]);
    }
  }

  lemma {:induction false} LexLeTrans(a: string, b: string, c: string)
    requires LexLe(a, b) && LexLe(b, c)
    ensures LexLe(a, c)
  {
    if a != [] && b != [] && c != [] && a[0] == b[0] && b[0] == c[0] {
      LexLeTrans(a[1..], b[1..], c[1..]);
    }
  }

  /** Only equal strings compare both ways. */
  lemma {:induction false} LexLeAntisymmetric(a: string, b: string)
    requires LexLe(a, b) && LexLe(b, a)
    ensures a == b
  {
    if a != [] && b != [] {
      LexLeAntisymmetric(a[1..], b[1..]);
      assert a == [a[0]] + a[1..] && b == [b[0]] + b[1..];
    }
  }

  /** Python's `str.isspace()` characters: the separators of `str.split()`. */
  predicate IsSpace(c: char) {
    c == ' ' || ('\t' <= c <= '\r') || ('\U{1C}' <= c <= '\U{1F}') || c == '\U{85}' || c == '\U{A0}'
    || c == '\U{1680}' || ('\U{2000}' <= c <= '\U{200A}') || c == '\U{2028}' || c == '\U{2029}'
    || c == '\U{202F}' || c == '\U{205F}' || c == '\U{3000}'
  }

  /** The characters matched by `\w`: ASCII letters, digits and the underscore. */
  predicate IsWordChar(c: char) {
    ('a' <= c <= 'z') || ('A' <= c <= 'Z') || ('0' <= c <= '9') || c == '_'
  }

  predicate NotSpace(c: char) {
    !IsSpace(c)
  }

  /** The non-empty current run as a one-element list, or nothing. */
  function Flush(cur: string): seq<string> {
    if cur == [] then [] else [cur]
  }

  /** The maximal runs of characters satisfying `inRun`, scanning `s` with
      `cur` as the run collected so far. */
  function RunsFrom(s: string, cur: string, inRun: char -> bool): seq<string>
    decreases |s|
  {
    if s == [] then Flush(cur)
    else if inRun(s[0]) then RunsFrom(s[1..], cur + [s[0]], inRun)
    else Flush(cur) + RunsFrom(s[1..], [], inRun)
  }

  function Runs(s: string, inRun: char -> bool): seq<string> {
    RunsFrom(s, [], inRun)
  }

  /** `s.split()`: the maximal runs of non-whitespace characters. */
  function Split(s: string): seq<string> {
    Runs(s, NotSpace)
  }

  /** `re.findall(r'\b\w+\b', s)`: the maximal runs of word characters. */
  function FindWords(s: string): seq<string> {
    Runs(s, IsWordChar)
  }

  /** Every run is non-empty, made of run characters, and keeps any property
      that all characters of the input have. */
  lemma {:induction false} RunsChars(s: string, cur: string, inRun: char -> bool, P: char -> bool)
    requires forall k :: 0 <= k < |s| ==> P(s[k])
    requires forall k :: 0 <= k < |cur| ==> P(cur[k]) && inRun(cur[k])
    ensures forall w :: w in RunsFrom(s, cur, inRun) ==>
      |w| > 0 && forall k :: 0 <= k < |w| ==> P(w[k]) && inRun(w[k])
    decreases |s|
  {
    if s != [] {
      if inRun(s[0]) {
        RunsChars(s[1..], cur + [s[0]], inRun, P);
      } else {
        RunsChars(s[1..], [], inRun, P);
      }
    }
  }

  /** Tokenising `a + c + b` with a separator `c` tokenises `a` and `b` apart:
      joining texts with a separator and tokenising the result gives the
      concatenation of the texts' tokens. */
  lemma {:induction false} RunsJoin(a: string, c: char, b: string, cur: string, inRun: char -> bool)
    requires !inRun(c)
    ensures RunsFrom(a + [c] + b, cur, inRun) == RunsFrom(a, cur, inRun) + Runs(b, inRun)
    decreases |a|
  {
    if a == [] {
      assert a + [c] + b == [c] + b;
      assert ([c] + b)[1..] == b;
    } else {
      assert (a + [c] + b)[0] == a[0];
      assert (a + [c] + b)[1..] == a[1..] + [c] + b;
      if inRun(a[0]) {
        RunsJoin(a[1..], c, b, cur + [a[0]], inRun);
      } else {
        RunsJoin(a[1..], c, b, [], inRun);
      }
    }
  }

  /** Folds every string of a list. */
  function LowerAll(ws: seq<string>): (r: seq<string>)
    ensures |r| == |ws|
  {
    seq(|ws|, i requires 0 <= i < |ws| => Lower(ws[i]))
  }

  /** Case folding never turns a separator into a token character or back, so
      splitting a folded text gives the folded tokens of the text. */
  lemma {:induction false} SplitLowerFrom(s: string, cur: string)
    ensures RunsFrom(Lower(s), Lower(cur), NotSpace) == LowerAll(RunsFrom(s, cur, NotSpace))
    decreases |s|
  {
    if s == [] {
      assert Lower(s) == [];
    } else {
      var ls := Lower(s);
      assert ls[0] == LowerChar(s[0]);
      assert ls[1..] == Lower(s[1..]);
      assert NotSpace(LowerChar(s[0])) == NotSpace(s[0]);
      if NotSpace(s[0]) {
        assert Lower(cur) + [ls[0]] == Lower(cur + [s[0]]);
        SplitLowerFrom(s[1..], cur + [s[0]]);
      } else {
        SplitLowerFrom(s[1..], []);
        assert Lower([]) == [];
        var rest := RunsFrom(s[1..], [], NotSpace);
        if cur == [] {
          assert Lower(cur) == [];
        } else {
          assert Lower(cur) != [];
          assert LowerAll([cur] + rest) == [Lower(cur)] + LowerAll(rest);
        }
      }
    }
  }

  lemma SplitLower(s: string)
    ensures Split(Lower(s)) == LowerAll(Split(s))
    ensures |Split(Lower(s))| == |Split(s)|
  {
    assert Lower([]) == [];
    SplitLowerFrom(s, []);
  }

  /** Where the leading whitespace of `s[i..]` ends. */
  function SkipSpaces(s: string, i: nat): (j: nat)
    requires i <= |s|
    ensures i <= j <= |s|
    ensures forall k :: i <= k < j ==> IsSpace(s[k])
    ensures j < |s| ==> !IsSpace(s[j])
    decreases |s| - i
  {
    if i == |s| || !IsSpace(s[i]) then i else SkipSpaces(s, i + 1)
  }

  /** Where the trailing whitespace of `s[lo..j]` starts. */
  function SkipSpacesBack(s: string, lo: nat, j: nat): (e: nat)
    requires lo <= j <= |s|
    ensures lo <= e <= j
    ensures forall k :: e <= k < j ==> IsSpace(s[k])
    ensures e > lo ==> !IsSpace(s[e - 1])
    decreases j
  {
    if j == lo || !IsSpace(s[j - 1]) then j else SkipSpacesBack(s, lo, j - 1)
  }

  /** `s.strip()`: `s` without its leading and trailing whitespace. */
  function Strip(s: string): (r: string)
    ensures |r| <= |s|
    ensures r == [] || (!IsSpace(r[0]) && !IsSpace(r[|r| - 1]))
    ensures r == [] <==> forall k :: 0 <= k < |s| ==> IsSpace(s[k])
    ensures var i := SkipSpaces(s, 0);
      i + |r| <= |s| && r == s[i..i + |r|] && forall k :: i + |r| <= k < |s| ==> IsSpace(s[k])
  {
    var i := SkipSpaces(s, 0);
    var e := SkipSpacesBack(s, i, |s|);
    assert forall k :: e <= k < |s| ==> IsSpace(s[k]);
    assert s[i..e] == s[i..i + |s[i..e]|];
    s[i..e]
  }

  /** `' '.join(texts)`. */
  function JoinSpace(texts: seq<string>): string {
    if texts == [] then []
    else if |texts| == 1 then texts[0]
    else texts[0] + [' '] + JoinSpace(texts[1..])
  }

  /** Folding commutes with joining on a space. */
  lemma {:induction false} LowerJoin(a: string, b: string)
    ensures Lower(a + [' '] + b) == Lower(a) + [' '] + Lower(b)
  {
  }

  /** Finding the words of a joined text finds the words of each text in turn. */
  lemma {:induction false} FindWordsJoin(texts: seq<string>)
    requires |texts| > 0
    ensures FindWords(Lower(JoinSpace(texts))) ==
      FindWords(Lower(texts[0])) + (if |texts| == 1 then [] else FindWords(Lower(JoinSpace(texts[1..]))))
  {
    if |texts| > 1 {
      LowerJoin(texts[0], JoinSpace(texts[1..]));
      RunsJoin(Lower(texts[0]), ' ', Lower(JoinSpace(texts[1..])), [], IsWordChar);
    }
  }

  /** Decimal rendering of a natural number, as in an f-string: digits only,
      and a leading zero only for zero itself. */
  function NatToString(n: nat): (r: string)
    ensures |r| > 0
    ensures forall k :: 0 <= k < |r| ==> '0' <= r[k] <= '9'
    ensures r[0] == '0' <==> n == 0
  {
    if n < 10 then [Digit(n)] else NatToString(n / 10) + [Digit(n % 10)]
  }

  /** The number a string of decimal digits denotes. */
  function DigitsValue(s: string): nat
    requires forall k :: 0 <= k < |s| ==> '0' <= s[k] <= '9'
  {
    if s == [] then 0
    else DigitsValue(s[..|s| - 1]) * 10 + (s[|s| - 1] as int - '0' as int)
  }

  /** Reading the rendering back gives the number: the text of a count is
      that count. */
  lemma {:induction false} NatToStringValue(n: nat)
    ensures DigitsValue(NatToString(n)) == n
  {
    var r := NatToString(n);
    if n >= 10 {
      NatToStringValue(n / 10);
      assert r[..|r| - 1] == NatToString(n / 10);
    }
  }

  function Digit(d: nat): (c: char)
    requires d < 10
    ensures '0' <= c <= '9'
  {
    ('0' as int + d) as char
  }
}
