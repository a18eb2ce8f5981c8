/**
 * Character classes and the Python string operations the segmenter relies on:
 * `str.strip()`, `str.split()`, `str.split("\n\n")` and the scanning steps the
 * regular expressions perform (`[ \t]*`, `[^\n(]+`, `[^)]+`).
 */
module Text {

  /** `[ \t]` in the source's patterns. */
  predicate IsBlank(c: char) {
    c == ' ' || c == '\t'
  }

  /**
   * Python's `str.isspace()`; `strip()`, `split()` and `\s` all use this class:
   * tab to carriage return, the file/group/record/unit separators, space, NEL,
   * no-break space and the Unicode space separators.
   */
  predicate IsSpace(c: char) {
    || c == ' '
    || '\t' <= c <= '\r'
    || '\U{1c}' <= c <= '\U{1f}'
    || c == '\U{85}'
    || c == '\U{a0}'
    || c == '\U{1680}'
    || '\U{2000}' <= c <= '\U{200a}'
    || c == '\U{2028}'
    || c == '\U{2029}'
    || c == '\U{202f}'
    || c == '\U{205f}'
    || c == '\U{3000}'
  }

  /** ASCII upper case, the class `[A-Z]`. */
  predicate IsUpper(c: char) {
    'A' <= c <= 'Z'
  }

  /** ASCII lower-casing, as the patterns compiled with IGNORECASE apply it. */
  function Lower(c: char): (r: char)
    ensures IsUpper(c) ==> r != c && 'a' <= r <= 'z'
    ensures !IsUpper(c) ==> r == c
  {
    if IsUpper(c) then (c as int + 32) as char else c
  }

  /** `w` occurs in `s` at offset `i`. */
  predicate StartsAt(s: string, i: nat, w: string) {
    i + |w| <= |s| && s[i..i + |w|] == w
  }

  /** `w` (written in lower case) occurs in `s` at offset `i`, ignoring ASCII case. */
  predicate StartsAtIgnoreCase(s: string, i: nat, w: string) {
    i + |w| <= |s| && forall k :: 0 <= k < |w| ==> Lower(s[i + k]) == w[k]
  }

  /** `[ \t]*` from offset `i`: the offset of the first non-blank character at or after `i`. */
  function SkipBlanks(s: string, i: nat): (j: nat)
    requires i <= |s|
    ensures i <= j <= |s|
    ensures forall k :: i <= k < j ==> IsBlank(s[k])
    ensures j == |s| || !IsBlank(s[j])
    decreases |s| - i
  {
    if i < |s| && IsBlank(s[i]) then SkipBlanks(s, i + 1) else i
  }

  /** The offset of the first character at or after `i` that is a space, or `|s|`. */
  function SkipSpaces(s: string, i: nat): (j: nat)
    requires i <= |s|
    ensures i <= j <= |s|
    ensures forall k :: i <= k < j ==> IsSpace(s[k])
    ensures j == |s| || !IsSpace(s[j])
    decreases |s| - i
  {
    if i < |s| && IsSpace(s[i]) then SkipSpaces(s, i + 1) else i
  }

  /** The offset of the first space at or after `i`, or `|s|`. */
  function SkipWord(s: string, i: nat): (j: nat)
    requires i <= |s|
    ensures i <= j <= |s|
    ensures forall k :: i <= k < j ==> !IsSpace(s[k])
    ensures j == |s| || IsSpace(s[j])
    decreases |s| - i
  {
    if i < |s| && !IsSpace(s[i]) then SkipWord(s, i + 1) else i
  }

  /** The offset of the first `c` at or after `i`, or `|s|` when there is none. */
  function FindChar(s: string, i: nat, c: char): (j: nat)
    requires i <= |s|
    ensures i <= j <= |s|
    ensures forall k :: i <= k < j ==> s[k] != c
    ensures j == |s| || s[j] == c
    decreases |s| - i
  {
    if i < |s| && s[i] != c then FindChar(s, i + 1, c) else i
  }

  /** Where the class `[^\n(]` stops: the first newline or `(` at or after `i`, or `|s|`. */
  function NameStop(s: string, i: nat): (j: nat)
    requires i <= |s|
    ensures i <= j <= |s|
    ensures forall k :: i <= k < j ==> s[k] != '\n' && s[k] != '('
    ensures j == |s| || s[j] == '\n' || s[j] == '('
    decreases |s| - i
  {
    if i < |s| && s[i] != '\n' && s[i] != '(' then NameStop(s, i + 1) else i
  }

  /** Every character of `s` is a space. */
  predicate AllSpace(s: string) {
    forall k :: 0 <= k < |s| ==> IsSpace(s[k])
  }

  /** The end of `s[..b]` once its trailing spaces are dropped. */
  function TrimEnd(s: string, b: nat): (e: nat)
    requires b <= |s|
    ensures e <= b
    ensures forall k :: e <= k < b ==> IsSpace(s[k])
    ensures e == 0 || !IsSpace(s[e - 1])
  {
    if b > 0 && IsSpace(s[b - 1]) then TrimEnd(s, b - 1) else b
  }

  /** Python's `s.strip()`: `s` without its leading and trailing spaces. */
  function Strip(s: string): (r: string)
    ensures |r| <= |s|
  {
    var a := SkipSpaces(s, 0);
    var e := TrimEnd(s, |s|);
    if a < e then s[a..e] else []
  }

  /**
   * The result of `strip()` is a slice of `s`, everything outside it is
   * space, it neither starts nor ends with a space, and it is empty exactly
   * when `s` is all space.
   */
  lemma StripShape(s: string)
    ensures var r := Strip(s);
      && (r == [] || (!IsSpace(r[0]) && !IsSpace(r[|r| - 1])))
      && (r == [] <==> AllSpace(s))
      && (r != [] ==> exists a :: 0 <= a && a + |r| <= |s| && AllSpace(s[..a]) && r == s[a..a + |r|] && AllSpace(s[a + |r|..]))
  {
    var a := SkipSpaces(s, 0);
    var e := TrimEnd(s, |s|);
    if a < e {
      assert AllSpace(s[..a]) && AllSpace(s[e..]);
    } else {
      assert a < |s| ==> e > a;
    }
  }

  /** Stripping twice strips nothing more. */
  lemma StripIdempotent(s: string)
    ensures Strip(Strip(s)) == Strip(s)
  {
    var r := Strip(s);
    if r != [] {
      assert SkipSpaces(r, 0) == 0;
      assert TrimEnd(r, |r|) == |r|;
    }
  }

  /** `strip()` keeps only characters of `s`. */
  lemma StripWithin(s: string, c: char)
    requires c !in s
    ensures c !in Strip(s)
  {
    var a := SkipSpaces(s, 0);
    var e := TrimEnd(s, |s|);
    if a < e {
      assert forall k :: 0 <= k < e - a ==> s[a..e][k] == s[a + k];
    }
  }

  /** A string that starts with a non-space keeps its first character through `strip()`. */
  lemma StripKeepsHead(s: string)
    requires s != [] && !IsSpace(s[0])
    ensures Strip(s) != [] && Strip(s)[0] == s[0]
  {
    assert SkipSpaces(s, 0) == 0;
    assert !AllSpace(s);
  }

  /** No character of `w` is a space. */
  predicate NoSpace(w: string) {
    forall k :: 0 <= k < |w| ==> !IsSpace(w[k])
  }

  /**
   * Python's `s.split()` without arguments: the maximal runs of non-space
   * characters, left to right. Every token is non-empty and holds no space.
   */
  function Tokens(s: string): (ws: seq<string>)
    ensures forall k :: 0 <= k < |ws| ==> ws[k] != [] && NoSpace(ws[k])
    ensures |ws| <= |s|
    decreases |s|
  {
    var a := SkipSpaces(s, 0);
    if a == |s| then []
    else
      var b := SkipWord(s, a);
      [s[a..b]] + Tokens(s[b..])
  }

  /** `len(s.split())`: the number of whitespace-delimited words. */
  function WordCount(s: string): nat {
    |Tokens(s)|
  }

  /** The tokens written one after the other. */
  function Concat(ws: seq<string>): string {
    if ws == [] then [] else ws[0] + Concat(ws[1..])
  }

  /** The characters of `s` that are not spaces, in order. */
  function NonSpace(s: string): string {
    if s == [] then [] else (if IsSpace(s[0]) then [] else [s[0]]) + NonSpace(s[1..])
  }

  lemma {:induction false} NonSpaceAppend(a: string, b: string)
    ensures NonSpace(a + b) == NonSpace(a) + NonSpace(b)
  {
    if a == [] {
      assert a + b == b;
    } else {
      assert (a + b)[0] == a[0];
      assert (a + b)[1..] == a[1..] + b;
      NonSpaceAppend(a[1..], b);
    }
  }

  lemma {:induction false} NonSpaceOfSpaces(s: string)
    requires AllSpace(s)
    ensures NonSpace(s) == []
  {
    if s != [] {
      NonSpaceOfSpaces(s[1..]);
    }
  }

  lemma {:induction false} NonSpaceOfWord(s: string)
    requires NoSpace(s)
    ensures NonSpace(s) == s
  {
    if s != [] {
      NonSpaceOfWord(s[1..]);
    }
  }

  /** Leading spaces and then a word contribute just the word to the non-space characters. */
  lemma {:induction false} NonSpaceSplit(s: string, a: nat, b: nat)
    requires a <= b <= |s|
    requires AllSpace(s[..a]) && NoSpace(s[a..b])
    ensures NonSpace(s) == s[a..b] + NonSpace(s[b..])
  {
    var spaces, word, rest := s[..a], s[a..b], s[b..];
    NonSpaceOfSpaces(spaces);
    NonSpaceOfWord(word);
    assert s[..b] + rest == s;
    NonSpaceAppend(s[..b], rest);
    assert spaces + word == s[..b];
    NonSpaceAppend(spaces, word);
  }

  /** `split()` loses only whitespace: the tokens laid end to end are the non-space characters of `s`. */
  lemma {:induction false} TokensCoverText(s: string)
    ensures Concat(Tokens(s)) == NonSpace(s)
    decreases |s|
  {
    var a := SkipSpaces(s, 0);
    if a == |s| {
      assert AllSpace(s);
      NonSpaceOfSpaces(s);
    } else {
      var b := SkipWord(s, a);
      var ws := Tokens(s);
      assert ws == [s[a..b]] + Tokens(s[b..]);
      assert ws[0] == s[a..b] && ws[1..] == Tokens(s[b..]);
      TokensCoverText(s[b..]);
      assert AllSpace(s[..a]) && NoSpace(s[a..b]);
      NonSpaceSplit(s, a, b);
    }
  }

  /** A word starts at `k`: a non-space at the start of `s` or after a space. */
  predicate WordStartAt(s: string, k: nat)
    requires k < |s|
  {
    !IsSpace(s[k]) && (k == 0 || IsSpace(s[k - 1]))
  }

  /** The number of offsets from `i` on at which a word starts. */
  function WordStartsFrom(s: string, i: nat): nat
    requires i <= |s|
    decreases |s| - i
  {
    if i == |s| then 0 else (if WordStartAt(s, i) then 1 else 0) + WordStartsFrom(s, i + 1)
  }

  lemma {:induction false} WordStartsSkip(s: string, i: nat, j: nat)
    requires i <= j <= |s|
    requires forall k :: i <= k < j ==> !WordStartAt(s, k)
    ensures WordStartsFrom(s, i) == WordStartsFrom(s, j)
    decreases j - i
  {
    if i < j {
      WordStartsSkip(s, i + 1, j);
    }
  }

  lemma {:induction false} WordStartsShift(s: string, b: nat, j: nat)
    requires b + j <= |s|
    requires b == |s| || IsSpace(s[b])
    ensures WordStartsFrom(s, b + j) == WordStartsFrom(s[b..], j)
    decreases |s| - b - j
  {
    if b + j < |s| {
      WordStartsShift(s, b, j + 1);
      assert WordStartAt(s, b + j) == WordStartAt(s[b..], j);
    }
  }

  /** `len(s.split())` is the number of offsets at which a word starts. */
  lemma {:induction false} WordCountIsWordStarts(s: string)
    ensures WordCount(s) == WordStartsFrom(s, 0)
    decreases |s|
  {
    var a := SkipSpaces(s, 0);
    if a == |s| {
      WordStartsSkip(s, 0, |s|);
    } else {
      var b := SkipWord(s, a);
      WordCountIsWordStarts(s[b..]);
      WordStartsSkip(s, 0, a);
      assert WordStartAt(s, a);
      forall k | a + 1 <= k < b
        ensures !WordStartAt(s, k)
      {
        assert !IsSpace(s[k - 1]);
      }
      WordStartsSkip(s, a + 1, b);
      WordStartsShift(s, b, 0);
    }
  }

  /** A text made only of spaces has no words, and a text with a non-space has at least one. */
  lemma {:induction false} WordCountZeroIffBlank(s: string)
    ensures WordCount(s) == 0 <==> AllSpace(s)
  {
    var a := SkipSpaces(s, 0);
    if a == |s| {
      assert AllSpace(s);
    } else {
      assert !IsSpace(s[a]);
    }
  }

  /** There is a paragraph break (`"\n\n"`) at offset `j` of `s`. */
  predicate BreakAt(s: string, j: nat) {
    j + 1 < |s| && s[j] == '\n' && s[j + 1] == '\n'
  }

  /** The offset of the first paragraph break at or after `i`, or `|s|` when there is none. */
  function NextBreak(s: string, i: nat): (j: nat)
    requires i <= |s|
    ensures i <= j <= |s|
    ensures j < |s| ==> BreakAt(s, j)
    ensures forall k :: i <= k < j ==> !BreakAt(s, k)
    decreases |s| - i
  {
    if i >= |s| then i
    else if BreakAt(s, i) then i
    else NextBreak(s, i + 1)
  }

  /** `s` contains no paragraph break. */
  predicate NoBreak(s: string) {
    forall k :: 0 <= k < |s| ==> !BreakAt(s, k)
  }

  /**
   * Python's `s.split("\n\n")`: the pieces between the breaks found left to
   * right. There is always at least one piece, no piece holds a break, and no
   * piece but the last ends with a newline (each break is the leftmost one).
   */
  function Paragraphs(s: string): (ps: seq<string>)
    ensures |ps| >= 1
    ensures forall k :: 0 <= k < |ps| ==> NoBreak(ps[k])
    ensures forall k :: 0 <= k < |ps| - 1 ==> ps[k] == [] || ps[k][|ps[k]| - 1] != '\n'
    decreases |s|
  {
    var j := NextBreak(s, 0);
    if j == |s| then
      [s]
    else
      var head := s[..j];
      assert forall k :: 0 <= k < |head| ==> !BreakAt(head, k) by {
        forall k | 0 <= k < |head| ensures !BreakAt(head, k) {
          assert !BreakAt(s, k);
        }
      }
      assert head == [] || head[|head| - 1] != '\n' by {
        if head != [] {
          assert !BreakAt(s, j - 1);
        }
      }
      var rest := Paragraphs(s[j + 2..]);
      assert forall k :: 1 <= k < |rest| + 1 ==> ([head] + rest)[k] == rest[k - 1];
      [head] + rest
  }

  /** `"\n\n".join(ps)`. */
  function JoinParagraphs(ps: seq<string>): string
    requires |ps| >= 1
  {
    if |ps| == 1 then ps[0] else ps[0] + "\n\n" + JoinParagraphs(ps[1..])
  }

  /** Splitting on `"\n\n"` loses nothing: joining the pieces gives the text back. */
  lemma {:induction false} ParagraphsRoundTrip(s: string)
    ensures JoinParagraphs(Paragraphs(s)) == s
    decreases |s|
  {
    var j := NextBreak(s, 0);
    if j < |s| {
      ParagraphsRoundTrip(s[j + 2..]);
      assert s == s[..j] + "\n\n" + s[j + 2..];
    }
  }

  /** The number of pieces that are not blank: `len([p for p in ps if p.strip()])`. */
  function CountNonBlank(ps: seq<string>): (n: nat)
    ensures n <= |ps|
    ensures n == 0 <==> forall k :: 0 <= k < |ps| ==> AllSpace(ps[k])
  {
    if ps == [] then 0
    else
      assert forall k :: 1 <= k < |ps| ==> ps[k] == ps[1..][k - 1];
      (if Strip(ps[0]) != [] then 1 else 0) + CountNonBlank(ps[1..])
  }

  /** One piece counts once exactly when it is not blank. */
  lemma CountNonBlankOne(p: string)
    ensures CountNonBlank([p]) == if AllSpace(p) then 0 else 1
  {
    assert [p][1..] == [];
  }

  /** The count is additive: the pieces of `a + b` that count are those of `a` and those of `b`. */
  lemma {:induction false} CountNonBlankAppend(a: seq<string>, b: seq<string>)
    ensures CountNonBlank(a + b) == CountNonBlank(a) + CountNonBlank(b)
    decreases |a|
  {
    if a == [] {
      assert a + b == b;
    } else {
      var c := a + b;
      assert c[0] == a[0] && c[1..] == a[1..] + b;
      CountNonBlankAppend(a[1..], b);
      CountNonBlankCons(a);
      CountNonBlankCons(c);
    }
  }

  /** The count of a non-empty list: its head, then the rest. */
  lemma CountNonBlankCons(ps: seq<string>)
    requires ps != []
    ensures CountNonBlank(ps) == (if Strip(ps[0]) != [] then 1 else 0) + CountNonBlank(ps[1..])
  {
  }

  /** The paragraph count of a speech: non-blank pieces of `s.split("\n\n")`. */
  function ParagraphCount(s: string): nat {
    CountNonBlank(Paragraphs(s))
  }
}
