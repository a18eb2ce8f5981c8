/**
 * Hand-written matchers for the five regular expressions of the extractor
 * and for the left-to-right, non-overlapping scan `finditer` performs.
 *
 * Each matcher answers whether its pattern matches at an offset `p` (all
 * five patterns begin with a newline, so `p` is a newline's offset) and, for
 * the introduction patterns, what the match captures and where it ends. The
 * backtracking of the regular-expression engine is resolved by hand: in
 * `([TITLE][^\n(]+)[ \t]+\(` the name slot cannot cross a `(` or a newline,
 * so a match must put its `(` at the first `(` or newline after the title,
 * preceded by a blank, with at least one name character between the title
 * and that blank. Group 1 then runs from the title to the last blank before
 * the `(` whichever title alternative matched, and the optional `.` after
 * Mr, Mrs, Ms, Mme and Dr never changes whether a line matches (a dotted
 * title that fits leaves room for the undotted one, the dot going to the
 * name), so titles are listed without it.
 */
module Patterns {
  import opened Wrappers
  import opened Text

  // ---------------------------------------------------------------------------
  // Speaker titles
  // ---------------------------------------------------------------------------

  /** `SPEAKER_TITLES`, each as its words; the words of a title are separated by `[ \t]+`. */
  const Titles: seq<seq<string>> := [
    ["Mr"], ["Mrs"], ["Ms"], ["Miss"], ["Mme"],
    ["Dame"], ["Sir"], ["Dr"],
    ["His", "Excellency"], ["Her", "Excellency"],
    ["His", "Royal", "Highness"], ["Her", "Royal", "Highness"],
    ["Baron"], ["Baroness"], ["Lord"], ["Lady"],
    ["Prince"], ["Princess"], ["Sheikh"], ["Dato"], ["Datuk"],
    ["Chief"],
    ["Commodore"], ["Admiral"],
    ["Major-General"], ["Lieutenant-General"], ["Brigadier-General"], ["General"],
    ["Colonel"], ["Major"], ["Captain"],
    ["Archbishop"], ["Cardinal"], ["Bishop"], ["Monsignor"], ["Father"], ["Pastor"],
    ["U"], ["Daw"],
    ["President"],
    ["Prime", "Minister"],
    ["Minister"]
  ]

  /** The end of `words`, each preceded by `[ \t]+`, matched from offset `j`. */
  function MoreWordsEnd(t: string, j: nat, words: seq<string>): (r: Option<nat>)
    requires j <= |t|
    ensures r.Some? ==> j <= r.value <= |t|
    decreases |words|
  {
    if words == [] then Some(j)
    else
      var b := SkipBlanks(t, j);
      if b > j && StartsAt(t, b, words[0]) then MoreWordsEnd(t, b + |words[0]|, words[1..]) else None
  }

  /** The end of `title` matched at offset `i`, if it matches there. */
  function TitleEnd(t: string, i: nat, title: seq<string>): (r: Option<nat>)
    requires i <= |t|
    ensures r.Some? ==> i <= r.value <= |t|
  {
    if title != [] && StartsAt(t, i, title[0]) then MoreWordsEnd(t, i + |title[0]|, title[1..]) else None
  }

  /**
   * `title` matches at `ts` and leaves room for a non-empty name and a blank
   * before the `(` at `k`.
   */
  predicate TitleFitsOne(t: string, ts: nat, k: nat, title: seq<string>)
    requires ts <= |t|
  {
    TitleEnd(t, ts, title).Some? && TitleEnd(t, ts, title).value + 1 < k
  }

  /** The alternatives `titles`, tried in order: one of them fits. */
  predicate TitleFitsAmong(t: string, ts: nat, k: nat, titles: seq<seq<string>>)
    requires ts <= |t|
  {
    titles != [] && (TitleFitsOne(t, ts, k, titles[0]) || TitleFitsAmong(t, ts, k, titles[1..]))
  }

  /** Some alternative of `SPEAKER_TITLES` matches at `ts` and fits before the `(` at `k`. */
  predicate TitleFits(t: string, ts: nat, k: nat)
    requires ts <= |t|
  {
    TitleFitsAmong(t, ts, k, Titles)
  }

  /** Some alternative of `titles` matches at `ts` and ends at `te`. */
  predicate TitleSpans(t: string, ts: nat, te: nat, titles: seq<seq<string>>)
    requires ts <= |t|
  {
    titles != [] && (TitleEnd(t, ts, titles[0]) == Some(te) || TitleSpans(t, ts, te, titles[1..]))
  }

  /** An alternative that ends two or more characters before `k` fits. */
  lemma {:induction false} TitleSpansFit(t: string, ts: nat, te: nat, k: nat, titles: seq<seq<string>>)
    requires ts <= |t| && TitleSpans(t, ts, te, titles) && te + 1 < k
    ensures TitleFitsAmong(t, ts, k, titles)
  {
    if TitleEnd(t, ts, titles[0]) != Some(te) {
      TitleSpansFit(t, ts, te, k, titles[1..]);
    }
  }

  /** An alternative that fits ends two or more characters before `k`. */
  lemma {:induction false} TitleFitSpans(t: string, ts: nat, k: nat, titles: seq<seq<string>>) returns (te: nat)
    requires ts <= |t| && TitleFitsAmong(t, ts, k, titles)
    ensures ts <= te && te + 1 < k && TitleSpans(t, ts, te, titles)
  {
    if TitleFitsOne(t, ts, k, titles[0]) {
      te := TitleEnd(t, ts, titles[0]).value;
    } else {
      te := TitleFitSpans(t, ts, k, titles[1..]);
    }
  }

  // ---------------------------------------------------------------------------
  // Introduction lines: SPEECH_PATTERN (strict) and POTENTIAL_SPEECH_PATTERN (loose)
  // ---------------------------------------------------------------------------

  /**
   * One match of an introduction pattern: where it starts (the newline) and
   * ends (after the colon), group 1 (title and name), the text of the first
   * parenthetical (group 2 of the strict pattern) and the optional second
   * parenthetical (group 3).
   */
  datatype Match = Match(start: nat, end: nat, text: string, speaker: string, country: string, language: Option<string>)

  /**
   * `\n[ \t]*(TITLE[^\n(]+)[ \t]+\(` at `p`: the offset of the opening
   * parenthesis when this prefix matches.
   */
  function IntroHead(t: string, p: nat): (k: Option<nat>)
    ensures k.Some? ==> p < k.value < |t| && t[k.value] == '('
    ensures k.Some? ==> SkipBlanks(t, p + 1) < k.value
    ensures k.Some? ==> t[p] == '\n' && k.value == NameStop(t, SkipBlanks(t, p + 1))
    ensures k.Some? ==> IsBlank(t[k.value - 1]) && TitleFits(t, SkipBlanks(t, p + 1), k.value)
  {
    if p < |t| && t[p] == '\n' then
      var ts := SkipBlanks(t, p + 1);
      var k := NameStop(t, ts);
      if k < |t| && t[k] == '(' && ts < k && IsBlank(t[k - 1]) && TitleFits(t, ts, k) then Some(k) else None
    else None
  }

  /**
   * The lookaheads of `COUNTRY_PATTERN` that reject a country slot starting
   * at `c`: a language note (`[ \t]*spoke`, `[ \t]*interpretation`) or a UN
   * staff title (`Under-Secretary`, `Secretary-General`,
   * `Assistant[ \t]+Secretary`).
   */
  predicate CountryExcluded(t: string, c: nat)
    requires c <= |t|
  {
    || StartsAt(t, SkipBlanks(t, c), "spoke")
    || StartsAt(t, SkipBlanks(t, c), "interpretation")
    || StartsAt(t, c, "Under-Secretary")
    || StartsAt(t, c, "Secretary-General")
    || (StartsAt(t, c, "Assistant") && SkipBlanks(t, c + 9) > c + 9 && StartsAt(t, SkipBlanks(t, c + 9), "Secretary"))
  }

  /**
   * `(?:[ \t]+\(([^)]+)\))?[ \t]*:` after the closing parenthesis at `m`:
   * where the match ends and the optional language note.
   */
  function IntroTail(t: string, m: nat): (r: Option<(nat, Option<string>)>)
    requires m < |t|
    ensures r.Some? ==> m < r.value.0 <= |t| && t[r.value.0 - 1] == ':'
    ensures r.Some? && r.value.1.Some? ==> r.value.1.value != [] && ')' !in r.value.1.value
  {
    var w := SkipBlanks(t, m + 1);
    if w < |t| && t[w] == ':' then Some((w + 1, None))
    else if w < |t| && t[w] == '(' && w > m + 1 then
      var n := FindChar(t, w + 1, ')');
      if n < |t| && n > w + 1 then
        var v := SkipBlanks(t, n + 1);
        if v < |t| && t[v] == ':' then Some((v + 1, Some(t[w + 1..n]))) else None
      else None
    else None
  }

  /** The shape every strict country capture has. */
  predicate CountryShaped(c: string) {
    && |c| >= 2
    && IsUpper(c[0])
    && ')' !in c
    && !StartsAt(c, 0, "spoke")
    && !StartsAt(c, 0, "interpretation")
    && !StartsAt(c, 0, "Under-Secretary")
    && !StartsAt(c, 0, "Secretary-General")
    && !(StartsAt(c, 0, "Assistant") && SkipBlanks(c, 9) > 9 && StartsAt(c, SkipBlanks(c, 9), "Secretary"))
  }

  /**
   * The match of `SPEECH_PATTERN` (when `strict`) or of
   * `POTENTIAL_SPEECH_PATTERN` (otherwise) at offset `p`, if there is one.
   * The strict country slot is `[A-Z][^)]+` behind the exclusion lookaheads;
   * the loose one is `[^)]+`.
   */
  function IntroAt(t: string, p: nat, strict: bool): (r: Option<Match>)
    ensures r.Some? ==> r.value.start == p && p < r.value.end <= |t|
    ensures r.Some? ==> ')' !in r.value.country && r.value.country != []
    ensures r.Some? && strict ==> CountryShaped(r.value.country)
  {
    match IntroHead(t, p)
    case None => None
    case Some(k) => IntroRest(t, p, k, strict)
  }

  /**
   * The rest of an introduction match once its head has put the opening
   * parenthesis at `k`: the country slot up to the first `)`, then the
   * optional note and the colon.
   */
  function IntroRest(t: string, p: nat, k: nat, strict: bool): (r: Option<Match>)
    requires p < k < |t| && SkipBlanks(t, p + 1) < k
    ensures r.Some? ==> r.value.start == p && p < r.value.end <= |t|
    ensures r.Some? ==> ')' !in r.value.country && r.value.country != []
    ensures r.Some? && strict ==> CountryShaped(r.value.country)
  {
    var ts := SkipBlanks(t, p + 1);
    var c := k + 1;
    if strict && (c >= |t| || !IsUpper(t[c]) || CountryExcluded(t, c)) then None
    else
      var m := FindChar(t, c, ')');
      if m == |t| || m < c + (if strict then 2 else 1) then None
      else
        match IntroTail(t, m)
        case None => None
        case Some(tail) =>
          var country := t[c..m];
          assert strict ==> CountryShaped(country) by {
            if strict {
              CountryShapedFromText(t, c, m);
            }
          }
          Some(Match(p, tail.0, t[p..tail.0], t[ts..k - 1], country, tail.1))
  }

  /** The country capture inherits the checks made on the text at its offset. */
  lemma CountryShapedFromText(t: string, c: nat, m: nat)
    requires c + 2 <= m < |t|
    requires IsUpper(t[c]) && !CountryExcluded(t, c)
    requires forall k :: c <= k < m ==> t[k] != ')'
    ensures CountryShaped(t[c..m])
  {
    var s := t[c..m];
    assert s[0] == t[c];
    forall k | 0 <= k < |s| ensures s[k] != ')' {
      assert s[k] == t[c + k];
    }
    assert SkipBlanks(t, c) == c;
    SliceLacks(t, c, m, "spoke");
    SliceLacks(t, c, m, "interpretation");
    SliceLacks(t, c, m, "Under-Secretary");
    SliceLacks(t, c, m, "Secretary-General");
    SliceLacksAssistantSecretary(t, c, m);
  }

  /** A word absent from the text at `c` is absent from the slice starting there. */
  lemma SliceLacks(t: string, c: nat, m: nat, w: string)
    requires c <= m <= |t| && !StartsAt(t, c, w)
    ensures !StartsAt(t[c..m], 0, w)
  {
    if StartsAt(t[c..m], 0, w) {
      SliceStartsAt(t, c, m, 0, w);
    }
  }

  /** `Assistant[ \t]+Secretary` absent from the text at `c` is absent from the slice starting there. */
  lemma SliceLacksAssistantSecretary(t: string, c: nat, m: nat)
    requires c + 2 <= m <= |t|
    requires !(StartsAt(t, c, "Assistant") && SkipBlanks(t, c + 9) > c + 9 && StartsAt(t, SkipBlanks(t, c + 9), "Secretary"))
    ensures var s := t[c..m];
      !(StartsAt(s, 0, "Assistant") && SkipBlanks(s, 9) > 9 && StartsAt(s, SkipBlanks(s, 9), "Secretary"))
  {
    var s := t[c..m];
    if StartsAt(s, 0, "Assistant") && SkipBlanks(s, 9) > 9 && StartsAt(s, SkipBlanks(s, 9), "Secretary") {
      var b := SkipBlanks(s, 9);
      SliceStartsAt(t, c, m, 0, "Assistant");
      SliceStartsAt(t, c, m, b, "Secretary");
      BlanksAgree(t, c, m, 9);
      assert false;
    }
  }

  /** A word found in a slice is found in the whole text at the shifted offset. */
  lemma SliceStartsAt(t: string, c: nat, m: nat, i: nat, w: string)
    requires c <= m <= |t| && StartsAt(t[c..m], i, w)
    ensures StartsAt(t, c + i, w)
  {
    var s := t[c..m];
    assert s[i..i + |w|] == w;
    forall k | 0 <= k < |w| ensures t[c + i..c + i + |w|][k] == w[k] {
      assert s[i..i + |w|][k] == s[i + k] == t[c + i + k];
    }
  }

  /** Skipping blanks inside a slice agrees with skipping them in the whole text. */
  lemma {:induction false} BlanksAgree(t: string, c: nat, m: nat, i: nat)
    requires c <= m <= |t| && i <= m - c
    ensures SkipBlanks(t[c..m], i) == m - c ==> c + SkipBlanks(t[c..m], i) <= SkipBlanks(t, c + i)
    ensures SkipBlanks(t[c..m], i) < m - c ==> c + SkipBlanks(t[c..m], i) == SkipBlanks(t, c + i)
    decreases m - c - i
  {
    var s := t[c..m];
    if i < |s| && IsBlank(s[i]) {
      BlanksAgree(t, c, m, i + 1);
    }
  }

  /** A line the strict pattern accepts is accepted by the loose one, with the same extent and captures. */
  lemma StrictIsLoose(t: string, p: nat)
    requires IntroAt(t, p, true).Some?
    ensures IntroAt(t, p, false) == IntroAt(t, p, true)
  {
  }

  // ---------------------------------------------------------------------------
  // The introduction patterns spelled out piece by piece
  // ---------------------------------------------------------------------------

  /** `t[i..j]` is a run of `[ \t]`. */
  ghost predicate Blanks(t: string, i: nat, j: nat) {
    forall q :: i <= q < j && q < |t| ==> IsBlank(t[q])
  }

  /** `t[i..j]` is a run of `[^\n(]`. */
  ghost predicate NameChars(t: string, i: nat, j: nat) {
    forall q :: i <= q < j && q < |t| ==> t[q] != '\n' && t[q] != '('
  }

  /** `t[i..j]` is a run of `[^)]`. */
  ghost predicate NoClose(t: string, i: nat, j: nat) {
    forall q :: i <= q < j && q < |t| ==> t[q] != ')'
  }

  /**
   * The line at `p` is laid out as the introduction patterns spell it:
   *
   *     \n [ \t]*  TITLE  [^\n(]+  [ \t]+  ( COUNTRY )  ( [ \t]+ ( NOTE ) )?  [ \t]*  :
   *     p        ts      te       g       k         m      w          n             v
   *
   * with some alternative of `SPEAKER_TITLES` from `ts` to `te`, the name
   * from `te` to `g`, the country between the parentheses at `k` and `m`,
   * the optional note between those at `w` and `n`, and the colon at `v`.
   * The strict country is `[A-Z][^)]+` behind the five exclusions; the loose
   * one is `[^)]+`.
   */
  ghost predicate Spelled(t: string, p: nat, strict: bool, ts: nat, te: nat, g: nat, k: nat, m: nat, note: Option<(nat, nat)>, v: nat) {
    && p < ts <= te < g < k < m < v < |t|
    && TitleSpans(t, ts, te, Titles)
    && HeadSpelled(t, p, ts, te, g, k)
    && TailSpelled(t, k, strict, m, note, v)
  }

  /** The head of a spelled line around its title: newline and blanks before it, name and blanks after it up to the `(` at `k`. */
  ghost predicate HeadSpelled(t: string, p: nat, ts: nat, te: nat, g: nat, k: nat)
    requires p < ts <= te < g < k < |t|
  {
    && t[p] == '\n' && Blanks(t, p + 1, ts)
    && NameChars(t, te, g) && Blanks(t, g, k)
    && t[k] == '('
  }

  /** The rest of a spelled line: the country up to the `)` at `m`, the optional note and the colon at `v`. */
  ghost predicate TailSpelled(t: string, k: nat, strict: bool, m: nat, note: Option<(nat, nat)>, v: nat)
    requires k < m < v < |t|
  {
    && NoClose(t, k + 1, m) && t[m] == ')'
    && (if strict then k + 3 <= m && IsUpper(t[k + 1]) && !CountryExcluded(t, k + 1) else k + 2 <= m)
    && (match note
        case None => Blanks(t, m + 1, v)
        case Some(wn) =>
          && m + 1 < wn.0 && wn.0 + 1 < wn.1 < v
          && Blanks(t, m + 1, wn.0) && t[wn.0] == '(' && NoClose(t, wn.0 + 1, wn.1) && t[wn.1] == ')'
          && Blanks(t, wn.1 + 1, v))
    && t[v] == ':'
  }

  /**
   * What a line laid out as `Spelled` yields: the match from the newline to
   * just after the colon, group 1 from the title up to the last blank before
   * the parenthesis (the greedy `[^\n(]+` gives back only the one blank that
   * `[ \t]+` needs), the country and the note.
   */
  function Captured(t: string, p: nat, ts: nat, k: nat, m: nat, note: Option<(nat, nat)>, v: nat): Match
    requires p <= ts < k < m < v < |t|
    requires note.Some? ==> m < note.value.0 < note.value.1 < v
  {
    Match(p, v + 1, t[p..v + 1], t[ts..k - 1], t[k + 1..m], if note.Some? then Some(t[note.value.0 + 1..note.value.1]) else None)
  }

  /** A word of a speaker title: it starts with a capital and holds no newline and no `(`. */
  predicate TitleWord(w: string) {
    w != [] && IsUpper(w[0]) && '\n' !in w && '(' !in w
  }

  /** A speaker title: a non-empty list of title words. */
  predicate IsTitle(title: seq<string>) {
    title != [] && forall q :: 0 <= q < |title| ==> TitleWord(title[q])
  }

  /** Every alternative of `SPEAKER_TITLES` is a speaker title. */
  lemma TitlesAreTitles()
    ensures forall j :: 0 <= j < |Titles| ==> IsTitle(Titles[j])
  {
    assert TitleWord("Mr");
    assert TitleWord("Mrs");
    assert TitleWord("Ms");
    assert TitleWord("Miss");
    assert TitleWord("Mme");
    assert TitleWord("Dame");
    assert TitleWord("Sir");
    assert TitleWord("Dr");
    assert TitleWord("His");
    assert TitleWord("Excellency");
    assert TitleWord("Her");
    assert TitleWord("Royal");
    assert TitleWord("Highness");
    assert TitleWord("Baron");
    assert TitleWord("Baroness");
    assert TitleWord("Lord");
    assert TitleWord("Lady");
    assert TitleWord("Prince");
    assert TitleWord("Princess");
    assert TitleWord("Sheikh");
    assert TitleWord("Dato");
    assert TitleWord("Datuk");
    assert TitleWord("Chief");
    assert TitleWord("Commodore");
    assert TitleWord("Admiral");
    assert TitleWord("Major-General");
    assert TitleWord("Lieutenant-General");
    assert TitleWord("Brigadier-General");
    assert TitleWord("General");
    assert TitleWord("Colonel");
    assert TitleWord("Major");
    assert TitleWord("Captain");
    assert TitleWord("Archbishop");
    assert TitleWord("Cardinal");
    assert TitleWord("Bishop");
    assert TitleWord("Monsignor");
    assert TitleWord("Father");
    assert TitleWord("Pastor");
    assert TitleWord("U");
    assert TitleWord("Daw");
    assert TitleWord("President");
    assert TitleWord("Prime");
    assert TitleWord("Minister");
  }

  /** Title words separated by blanks hold no newline and no `(`. */
  lemma {:induction false} MoreWordsNameChars(t: string, j: nat, words: seq<string>)
    requires j <= |t|
    requires forall q :: 0 <= q < |words| ==> TitleWord(words[q])
    requires MoreWordsEnd(t, j, words).Some?
    ensures NameChars(t, j, MoreWordsEnd(t, j, words).value)
    decreases |words|
  {
    if words != [] {
      var b := SkipBlanks(t, j);
      var w := words[0];
      MoreWordsNameChars(t, b + |w|, words[1..]);
      forall q | b <= q < b + |w|
        ensures t[q] != '\n' && t[q] != '('
      {
        assert t[b..b + |w|][q - b] == w[q - b];
      }
    }
  }

  /** A title matched at `ts` starts with a capital and holds no newline and no `(`. */
  lemma TitleNameChars(t: string, ts: nat, title: seq<string>)
    requires ts <= |t| && IsTitle(title) && TitleEnd(t, ts, title).Some?
    ensures ts < |t| && IsUpper(t[ts])
    ensures NameChars(t, ts, TitleEnd(t, ts, title).value)
  {
    var w := title[0];
    assert TitleWord(w);
    assert t[ts..ts + |w|][0] == w[0];
    assert forall q :: 0 <= q < |title[1..]| ==> TitleWord(title[1..][q]);
    MoreWordsNameChars(t, ts + |w|, title[1..]);
    forall q | ts <= q < ts + |w|
      ensures t[q] != '\n' && t[q] != '('
    {
      assert t[ts..ts + |w|][q - ts] == w[q - ts];
    }
  }

  /** Whichever alternative of a list of titles matched, it starts with a capital and holds no newline and no `(`. */
  lemma {:induction false} TitleSpansNameChars(t: string, ts: nat, te: nat, titles: seq<seq<string>>)
    requires ts <= |t| && TitleSpans(t, ts, te, titles)
    requires forall j :: 0 <= j < |titles| ==> IsTitle(titles[j])
    ensures ts < |t| && IsUpper(t[ts]) && NameChars(t, ts, te)
  {
    if TitleEnd(t, ts, titles[0]) == Some(te) {
      TitleNameChars(t, ts, titles[0]);
    } else {
      assert forall j :: 0 <= j < |titles[1..]| ==> titles[1..][j] == titles[j + 1];
      TitleSpansNameChars(t, ts, te, titles[1..]);
    }
  }

  /** `[ \t]*` stops at the first non-blank. */
  lemma SkipBlanksIs(t: string, i: nat, j: nat)
    requires i <= j < |t| && Blanks(t, i, j) && !IsBlank(t[j])
    ensures SkipBlanks(t, i) == j
  {
  }

  /** `[^\n(]` stops at the first newline or `(`. */
  lemma NameStopIs(t: string, i: nat, j: nat)
    requires i <= j < |t| && NameChars(t, i, j) && (t[j] == '\n' || t[j] == '(')
    ensures NameStop(t, i) == j
  {
  }

  /** `[^)]` stops at the first `)`. */
  lemma FindCloseIs(t: string, i: nat, j: nat)
    requires i <= j < |t| && NoClose(t, i, j) && t[j] == ')'
    ensures FindChar(t, i, ')') == j
  {
  }

  /** The optional note and the colon, as laid out, are what `IntroTail` finds. */
  lemma IntroTailComplete(t: string, m: nat, note: Option<(nat, nat)>, v: nat)
    requires m < v < |t| && t[v] == ':'
    requires match note
        case None => Blanks(t, m + 1, v)
        case Some(wn) =>
          && m + 1 < wn.0 && wn.0 + 1 < wn.1 < v
          && Blanks(t, m + 1, wn.0) && t[wn.0] == '(' && NoClose(t, wn.0 + 1, wn.1) && t[wn.1] == ')'
          && Blanks(t, wn.1 + 1, v)
    ensures IntroTail(t, m) == Some((v + 1, if note.Some? then Some(t[note.value.0 + 1..note.value.1]) else None))
  {
    match note
    case None =>
      SkipBlanksIs(t, m + 1, v);
    case Some(wn) =>
      SkipBlanksIs(t, m + 1, wn.0);
      FindCloseIs(t, wn.0 + 1, wn.1);
      SkipBlanksIs(t, wn.1 + 1, v);
  }

  /** When the head matches, `IntroAt` is the rest of the match. */
  lemma IntroAtRest(t: string, p: nat, k: nat, strict: bool)
    requires IntroHead(t, p) == Some(k)
    ensures IntroAt(t, p, strict) == IntroRest(t, p, k, strict)
  {
  }

  /** The rest of the match assembled from its parts: the country slot and the tail. */
  lemma IntroRestParts(t: string, p: nat, strict: bool, k: nat, m: nat, tail: (nat, Option<string>))
    requires p < k < |t| && SkipBlanks(t, p + 1) < k
    requires strict ==> k + 1 < |t| && IsUpper(t[k + 1]) && !CountryExcluded(t, k + 1)
    requires FindChar(t, k + 1, ')') == m && m < |t| && m >= k + 1 + (if strict then 2 else 1)
    requires IntroTail(t, m) == Some(tail)
    ensures IntroRest(t, p, k, strict) == Some(Match(p, tail.0, t[p..tail.0], t[SkipBlanks(t, p + 1)..k - 1], t[k + 1..m], tail.1))
  {
  }

  /** `IntroRestParts` for the parts of a line laid out as spelled. */
  lemma IntroRestCaptures(t: string, p: nat, strict: bool, ts: nat, k: nat, m: nat, note: Option<(nat, nat)>, v: nat)
    requires p <= ts < k < m < v < |t| && (note.Some? ==> m < note.value.0 < note.value.1 < v)
    requires SkipBlanks(t, p + 1) == ts
    requires strict ==> IsUpper(t[k + 1]) && !CountryExcluded(t, k + 1)
    requires FindChar(t, k + 1, ')') == m && m >= k + 1 + (if strict then 2 else 1)
    requires IntroTail(t, m) == Some((v + 1, if note.Some? then Some(t[note.value.0 + 1..note.value.1]) else None))
    ensures IntroRest(t, p, k, strict) == Some(Captured(t, p, ts, k, m, note, v))
  {
    var tail := (v + 1, if note.Some? then Some(t[note.value.0 + 1..note.value.1]) else None);
    IntroRestParts(t, p, strict, k, m, tail);
    assert Captured(t, p, ts, k, m, note, v) == Match(p, tail.0, t[p..tail.0], t[ts..k - 1], t[k + 1..m], tail.1);
  }

  /** The parts the rest of a match found: the closing parenthesis and the tail. */
  lemma IntroRestHasParts(t: string, p: nat, k: nat, strict: bool) returns (m: nat, tail: (nat, Option<string>))
    requires p < k < |t| && SkipBlanks(t, p + 1) < k
    requires IntroRest(t, p, k, strict).Some?
    ensures k < m < |t|
    ensures strict ==> k + 1 < |t| && IsUpper(t[k + 1]) && !CountryExcluded(t, k + 1)
    ensures FindChar(t, k + 1, ')') == m && m >= k + 1 + (if strict then 2 else 1)
    ensures IntroTail(t, m) == Some(tail)
    ensures IntroRest(t, p, k, strict).value == Match(p, tail.0, t[p..tail.0], t[SkipBlanks(t, p + 1)..k - 1], t[k + 1..m], tail.1)
  {
    m := FindChar(t, k + 1, ')');
    tail := IntroTail(t, m).value;
  }

  /** Whichever alternative of `SPEAKER_TITLES` matched, it starts with a capital and holds no newline and no `(`. */
  lemma TitlesNameChars(t: string, ts: nat, te: nat)
    requires ts <= |t| && TitleSpans(t, ts, te, Titles)
    ensures ts < |t| && IsUpper(t[ts]) && NameChars(t, ts, te)
  {
    TitlesAreTitles();
    TitleSpansNameChars(t, ts, te, Titles);
  }

  /** The head of the line, as laid out, is what `IntroHead` finds. */
  lemma IntroHeadComplete(t: string, p: nat, ts: nat, k: nat)
    requires p < |t| && t[p] == '\n' && SkipBlanks(t, p + 1) == ts
    requires NameStop(t, ts) == k && k < |t| && t[k] == '(' && ts < k && IsBlank(t[k - 1])
    requires TitleFits(t, ts, k)
    ensures IntroHead(t, p) == Some(k)
  {
  }

  /** A title, a name and blanks, one after the other, hold no newline and no `(`. */
  lemma NameCharsJoin(t: string, ts: nat, te: nat, g: nat, k: nat)
    requires ts <= te <= g <= k
    requires NameChars(t, ts, te) && NameChars(t, te, g) && Blanks(t, g, k)
    ensures NameChars(t, ts, k)
  {
    forall q | ts <= q < k && q < |t|
      ensures t[q] != '\n' && t[q] != '('
    {
      if q >= g {
        assert IsBlank(t[q]);
      }
    }
  }

  /** The title, name and blanks of a line laid out as spelled reach the first `(`. */
  lemma HeadLaidOut(t: string, p: nat, ts: nat, te: nat, g: nat, k: nat)
    requires p < ts <= te < g < k < |t| && t[p] == '\n' && Blanks(t, p + 1, ts)
    requires TitleSpans(t, ts, te, Titles)
    requires NameChars(t, te, g) && Blanks(t, g, k) && t[k] == '('
    ensures IntroHead(t, p) == Some(k) && SkipBlanks(t, p + 1) == ts
  {
    TitlesNameChars(t, ts, te);
    SkipBlanksIs(t, p + 1, ts);
    NameCharsJoin(t, ts, te, g, k);
    NameStopIs(t, ts, k);
    TitleSpansFit(t, ts, te, k, Titles);
    IntroHeadComplete(t, p, ts, k);
  }

  /** A line laid out as spelled has the head, country slot and tail `IntroAt` looks for. */
  lemma SpelledParts(t: string, p: nat, strict: bool, ts: nat, te: nat, g: nat, k: nat, m: nat, note: Option<(nat, nat)>, v: nat)
    requires Spelled(t, p, strict, ts, te, g, k, m, note, v)
    ensures p <= ts < k < m < v < |t| && (note.Some? ==> m < note.value.0 < note.value.1 < v)
    ensures IntroHead(t, p) == Some(k) && SkipBlanks(t, p + 1) == ts
    ensures strict ==> IsUpper(t[k + 1]) && !CountryExcluded(t, k + 1)
    ensures FindChar(t, k + 1, ')') == m && m >= k + 1 + (if strict then 2 else 1)
    ensures IntroTail(t, m) == Some((v + 1, if note.Some? then Some(t[note.value.0 + 1..note.value.1]) else None))
  {
    HeadLaidOut(t, p, ts, te, g, k);
    FindCloseIs(t, k + 1, m);
    IntroTailComplete(t, m, note, v);
  }

  /**
   * Completeness: wherever a line is laid out as the pattern spells it, the
   * matcher matches there, with the captures of the greedy reading.
   */
  lemma IntroAtComplete(t: string, p: nat, strict: bool, ts: nat, te: nat, g: nat, k: nat, m: nat, note: Option<(nat, nat)>, v: nat)
    requires Spelled(t, p, strict, ts, te, g, k, m, note, v)
    ensures IntroAt(t, p, strict) == Some(Captured(t, p, ts, k, m, note, v))
  {
    SpelledParts(t, p, strict, ts, te, g, k, m, note, v);
    IntroRestCaptures(t, p, strict, ts, k, m, note, v);
    IntroAtRest(t, p, k, strict);
  }

  /** The rest of a match is laid out as spelled; the layout is returned. */
  lemma RestLaidOut(t: string, p: nat, k: nat, strict: bool) returns (m: nat, note: Option<(nat, nat)>, v: nat)
    requires p < k < |t| && SkipBlanks(t, p + 1) < k
    requires IntroRest(t, p, k, strict).Some?
    ensures k < m < v < |t| && (note.Some? ==> m < note.value.0 < note.value.1 < v)
    ensures TailSpelled(t, k, strict, m, note, v)
    ensures IntroRest(t, p, k, strict).value == Captured(t, p, SkipBlanks(t, p + 1), k, m, note, v)
  {
    var tail;
    m, tail := IntroRestHasParts(t, p, k, strict);
    note, v := TailLaidOut(t, m);
    TailSpelledOf(t, k, strict, m, note, v);
  }

  /** The country slot and tail `IntroRest` checks, read as a spelled tail. */
  lemma TailSpelledOf(t: string, k: nat, strict: bool, m: nat, note: Option<(nat, nat)>, v: nat)
    requires k < m < v < |t| && t[v] == ':'
    requires FindChar(t, k + 1, ')') == m && m >= k + 1 + (if strict then 2 else 1)
    requires strict ==> k + 1 < |t| && IsUpper(t[k + 1]) && !CountryExcluded(t, k + 1)
    requires match note
        case None => Blanks(t, m + 1, v)
        case Some(wn) =>
          && m + 1 < wn.0 && wn.0 + 1 < wn.1 < v
          && Blanks(t, m + 1, wn.0) && t[wn.0] == '(' && NoClose(t, wn.0 + 1, wn.1) && t[wn.1] == ')'
          && Blanks(t, wn.1 + 1, v)
    ensures TailSpelled(t, k, strict, m, note, v)
  {
  }

  /** The head `IntroHead` checks, read as a spelled head around a title ending at `te`. */
  lemma HeadSpelledOf(t: string, p: nat, ts: nat, te: nat, k: nat)
    requires p < ts <= te < k - 1 && k < |t| && t[p] == '\n' && SkipBlanks(t, p + 1) == ts
    requires NameStop(t, ts) == k && t[k] == '(' && IsBlank(t[k - 1])
    ensures HeadSpelled(t, p, ts, te, k - 1, k)
  {
  }

  /** `TitleFitSpans` for `SPEAKER_TITLES`. */
  lemma TitlesFitSpan(t: string, ts: nat, k: nat) returns (te: nat)
    requires ts <= |t| && TitleFits(t, ts, k)
    ensures ts <= te && te + 1 < k && TitleSpans(t, ts, te, Titles)
  {
    te := TitleFitSpans(t, ts, k, Titles);
  }

  /**
   * Soundness: a match of the matcher is a line laid out as the pattern
   * spells it, and the match holds that layout's captures.
   */
  lemma IntroAtSound(t: string, p: nat, strict: bool)
    requires IntroAt(t, p, strict).Some?
    ensures exists ts: nat, te: nat, g: nat, k: nat, m: nat, note: Option<(nat, nat)>, v: nat ::
      && Spelled(t, p, strict, ts, te, g, k, m, note, v)
      && p <= ts < k < m < v < |t| && (note.Some? ==> m < note.value.0 < note.value.1 < v)
      && IntroAt(t, p, strict).value == Captured(t, p, ts, k, m, note, v)
  {
    var k := IntroHead(t, p).value;
    IntroAtRest(t, p, k, strict);
    var ts := SkipBlanks(t, p + 1);
    var te := TitlesFitSpan(t, ts, k);
    HeadSpelledOf(t, p, ts, te, k);
    var m, note, v := RestLaidOut(t, p, k, strict);
    assert Spelled(t, p, strict, ts, te, k - 1, k, m, note, v);
  }

  /** What `IntroTail` finds is laid out as the optional note and the colon; the layout is returned. */
  lemma TailLaidOut(t: string, m: nat) returns (note: Option<(nat, nat)>, v: nat)
    requires m < |t| && IntroTail(t, m).Some?
    ensures m < v < |t| && t[v] == ':'
    ensures match note
        case None => Blanks(t, m + 1, v)
        case Some(wn) =>
          && m + 1 < wn.0 && wn.0 + 1 < wn.1 < v
          && Blanks(t, m + 1, wn.0) && t[wn.0] == '(' && NoClose(t, wn.0 + 1, wn.1) && t[wn.1] == ')'
          && Blanks(t, wn.1 + 1, v)
    ensures IntroTail(t, m) == Some((v + 1, if note.Some? then Some(t[note.value.0 + 1..note.value.1]) else None))
  {
    v := IntroTail(t, m).value.0 - 1;
    var w := SkipBlanks(t, m + 1);
    note := if t[w] == ':' then None else Some((w, FindChar(t, w + 1, ')')));
  }

  // ---------------------------------------------------------------------------
  // Lines the extractor's comments give as examples
  // ---------------------------------------------------------------------------

  /** `Mr` at `ts` is the first alternative of `SPEAKER_TITLES`. */
  lemma MrSpans(t: string, ts: nat, te: nat)
    requires te == ts + 2 && StartsAt(t, ts, "Mr")
    ensures TitleSpans(t, ts, te, Titles)
  {
    assert Titles[0] == ["Mr"];
  }

  /** `Mr` after the newline that opens a line. */
  lemma MrWord(t: string)
    requires 3 < |t| && t[1] == 'M' && t[2] == 'r'
    ensures StartsAt(t, 1, "Mr")
  {
    var w := t[1..3];
    assert |w| == 2 && w[0] == "Mr"[0] && w[1] == "Mr"[1];
    assert w == "Mr";
  }
  /** A line `\n`, `Mr`, a name up to the blank at `g` and a `(`: the head of an introduction, with `Mr` as its title. */
  lemma MrHeadSpelled(t: string, g: nat)
    requires 3 < g && g + 1 < |t| && t[0] == '\n' && t[1] == 'M' && t[2] == 'r'
    requires NameChars(t, 3, g) && IsBlank(t[g]) && t[g + 1] == '('
    ensures TitleSpans(t, 1, 3, Titles) && HeadSpelled(t, 0, 1, 3, g, g + 1)
    ensures IntroHead(t, 0) == Some(g + 1)
  {
    MrWord(t);
    MrSpans(t, 1, 3);
    HeadLaidOut(t, 0, 1, 3, g, g + 1);
  }


  /** A word does not occur where the text has another first letter. */
  lemma NotStartsAt(t: string, i: nat, w: string)
    requires i < |t| && w != [] && t[i] != w[0]
    ensures !StartsAt(t, i, w)
  {
  }

  /** A country slot opening with a capital other than `U`, `S` and `A` passes the five exclusions. */
  lemma CapitalNotExcluded(t: string, c: nat)
    requires c < |t| && IsUpper(t[c]) && t[c] != 'U' && t[c] != 'S' && t[c] != 'A'
    ensures !CountryExcluded(t, c)
  {
    assert SkipBlanks(t, c) == c;
    NotStartsAt(t, c, "spoke");
    NotStartsAt(t, c, "interpretation");
    NotStartsAt(t, c, "Under-Secretary");
    NotStartsAt(t, c, "Secretary-General");
    NotStartsAt(t, c, "Assistant");
  }

  /** A delegate's introduction the extractor's comments list among those that must match. */
  const OnkeyaLine: string := "\n" + "Mr. Onkeya" + " (" + "Lao People's Democratic Republic" + "):"

  lemma OnkeyaName()
    ensures |OnkeyaLine| == 47 && OnkeyaLine[0] == '\n' && OnkeyaLine[1] == 'M' && OnkeyaLine[2] == 'r'
    ensures NameChars(OnkeyaLine, 3, 11) && OnkeyaLine[11] == ' ' && OnkeyaLine[12] == '('
  {
    var t := OnkeyaLine;
    forall q | 3 <= q < 11
      ensures t[q] != '\n' && t[q] != '('
    {
      assert t[q] == "Mr. Onkeya"[q - 1];
    }
  }

  lemma OnkeyaHead()
    ensures |OnkeyaLine| == 47
    ensures TitleSpans(OnkeyaLine, 1, 3, Titles) && HeadSpelled(OnkeyaLine, 0, 1, 3, 11, 12)
  {
    OnkeyaName();
    MrHeadSpelled(OnkeyaLine, 11);
  }

  lemma OnkeyaTail()
    ensures |OnkeyaLine| == 47
    ensures TailSpelled(OnkeyaLine, 12, true, 45, None, 46)
  {
    var t := OnkeyaLine;
    forall q | 13 <= q < 45
      ensures t[q] != ')'
    {
      assert t[q] == "Lao People's Democratic Republic"[q - 13];
    }
    assert t[13] == 'L';
    CapitalNotExcluded(t, 13);
  }

  /** "Mr. Onkeya (Lao People's Democratic Republic):" is a delegate's introduction, with these captures. */
  lemma OnkeyaMatches()
    ensures IntroAt(OnkeyaLine, 0, true) == Some(Match(0, |OnkeyaLine|, OnkeyaLine, "Mr. Onkeya", "Lao People's Democratic Republic", None))
  {
    var t := OnkeyaLine;
    OnkeyaHead();
    OnkeyaTail();
    IntroAtComplete(t, 0, true, 1, 3, 11, 12, 45, None, 46);
    OnkeyaSlices();
  }

  lemma OnkeyaSlices()
    ensures |OnkeyaLine| == 47 && OnkeyaLine[0..47] == OnkeyaLine
    ensures OnkeyaLine[1..11] == "Mr. Onkeya" && OnkeyaLine[13..45] == "Lao People's Democratic Republic"
  {
    var t := OnkeyaLine;
    assert t[1..11] == "Mr. Onkeya";
    assert t[13..45] == "Lao People's Democratic Republic";
  }

  /** Every alternative of `SPEAKER_TITLES` opens with one of the capitals `M D S H B L P C A G F U`. */
  lemma TitleInitials()
    ensures forall j :: 0 <= j < |Titles| ==> Titles[j] != [] && Titles[j][0] != [] && Titles[j][0][0] in "MDSHBLPCAGFU"
  {
  }

  /** No alternative of `titles` fits at `ts` when none opens with the letter there. */
  lemma {:induction false} NoTitleFits(t: string, ts: nat, k: nat, titles: seq<seq<string>>)
    requires ts < |t|
    requires forall j :: 0 <= j < |titles| ==> titles[j] != [] && titles[j][0] != [] && titles[j][0][0] != t[ts]
    ensures !TitleFitsAmong(t, ts, k, titles)
  {
    if titles != [] {
      NotStartsAt(t, ts, titles[0][0]);
      assert forall j :: 0 <= j < |titles[1..]| ==> titles[1..][j] == titles[j + 1];
      NoTitleFits(t, ts, k, titles[1..]);
    }
  }

  /** A line whose first word opens with no title initial is no introduction. */
  lemma NoTitleNoIntro(t: string, p: nat, strict: bool)
    requires p + 1 < |t| && t[p + 1] !in "MDSHBLPCAGFU" && !IsBlank(t[p + 1])
    ensures IntroAt(t, p, strict) == None
  {
    TitleInitials();
    assert SkipBlanks(t, p + 1) == p + 1;
    NoTitleFits(t, p + 1, NameStop(t, p + 1), Titles);
  }

  /** The session chair's line, which the extractor's comments list among those that must not match. */
  const ChairLine: string := "\n" + "The President" + " (" + "spoke in French" + "):"

  /** "The President (spoke in French):" matches neither introduction pattern. */
  lemma ChairIsNoIntro()
    ensures IntroAt(ChairLine, 0, true) == None && IntroAt(ChairLine, 0, false) == None
  {
    assert ChairLine[1] == 'T';
    NoTitleNoIntro(ChairLine, 0, true);
    NoTitleNoIntro(ChairLine, 0, false);
  }

  /** A chair's announcement, which the extractor's comments list among those that must not match. */
  const OlhayeLine: string := "\n" + "Mr. Olhaye" + " (" + "Djibouti" + "), Vice-President, took the Chair."

  lemma OlhayeName()
    ensures |OlhayeLine| == 55 && OlhayeLine[0] == '\n' && OlhayeLine[1] == 'M' && OlhayeLine[2] == 'r'
    ensures NameChars(OlhayeLine, 3, 11) && OlhayeLine[11] == ' ' && OlhayeLine[12] == '('
  {
    var t := OlhayeLine;
    forall q | 3 <= q < 11
      ensures t[q] != '\n' && t[q] != '('
    {
      assert t[q] == "Mr. Olhaye"[q - 1];
    }
  }

  lemma OlhayeHead()
    ensures |OlhayeLine| == 55 && IntroHead(OlhayeLine, 0) == Some(12)
  {
    OlhayeName();
    MrHeadSpelled(OlhayeLine, 11);
  }

  lemma OlhayeClose()
    ensures |OlhayeLine| == 55 && FindChar(OlhayeLine, 13, ')') == 21 && OlhayeLine[13] == 'D'
  {
    var t := OlhayeLine;
    forall q | 13 <= q < 21
      ensures t[q] != ')'
    {
      assert t[q] == "Djibouti"[q - 13];
    }
    FindCloseIs(t, 13, 21);
  }

  /** After `(Djibouti)` comes a comma, so no colon closes the introduction. */
  lemma OlhayeTail()
    ensures |OlhayeLine| == 55 && IntroTail(OlhayeLine, 21) == None
  {
    assert OlhayeLine[22] == ',';
    assert SkipBlanks(OlhayeLine, 22) == 22;
  }

  /** "Mr. Olhaye (Djibouti), Vice-President, took the Chair." matches neither introduction pattern. */
  lemma OlhayeIsNoIntro()
    ensures IntroAt(OlhayeLine, 0, true) == None && IntroAt(OlhayeLine, 0, false) == None
  {
    OlhayeHead();
    OlhayeClose();
    OlhayeTail();
    IntroAtRest(OlhayeLine, 0, 12, true);
    IntroAtRest(OlhayeLine, 0, 12, false);
    CapitalNotExcluded(OlhayeLine, 13);
  }

  /** An introduction with blanks inside the parentheses, which only the loose pattern accepts. */
  const AsselbornLine: string := "\n" + "Mr. Asselborn" + " (" + " spoke in French " + "):"

  lemma AsselbornName()
    ensures |AsselbornLine| == 35 && AsselbornLine[0] == '\n' && AsselbornLine[1] == 'M' && AsselbornLine[2] == 'r'
    ensures NameChars(AsselbornLine, 3, 14) && AsselbornLine[14] == ' ' && AsselbornLine[15] == '('
  {
    var t := AsselbornLine;
    forall q | 3 <= q < 14
      ensures t[q] != '\n' && t[q] != '('
    {
      assert t[q] == "Mr. Asselborn"[q - 1];
    }
  }

  lemma AsselbornHead()
    ensures |AsselbornLine| == 35
    ensures TitleSpans(AsselbornLine, 1, 3, Titles) && HeadSpelled(AsselbornLine, 0, 1, 3, 14, 15)
  {
    AsselbornName();
    MrHeadSpelled(AsselbornLine, 14);
  }

  lemma AsselbornTail()
    ensures |AsselbornLine| == 35 && !IsUpper(AsselbornLine[16])
    ensures TailSpelled(AsselbornLine, 15, false, 33, None, 34)
  {
    var t := AsselbornLine;
    forall q | 16 <= q < 33
      ensures t[q] != ')'
    {
      assert t[q] == " spoke in French "[q - 16];
    }
  }

  /** "Mr. Asselborn ( spoke in French ):" fails the strict pattern, whose country must open with a capital, and matches the loose one. */
  lemma AsselbornIsLooseOnly()
    ensures IntroAt(AsselbornLine, 0, true) == None
    ensures IntroAt(AsselbornLine, 0, false) == Some(Match(0, |AsselbornLine|, AsselbornLine, "Mr. Asselborn", " spoke in French ", None))
  {
    var t := AsselbornLine;
    AsselbornHead();
    AsselbornTail();
    SpelledParts(t, 0, false, 1, 3, 14, 15, 33, None, 34);
    IntroAtRest(t, 0, 15, true);
    IntroAtComplete(t, 0, false, 1, 3, 14, 15, 33, None, 34);
    AsselbornSlices();
  }

  lemma AsselbornSlices()
    ensures |AsselbornLine| == 35 && AsselbornLine[0..35] == AsselbornLine
    ensures AsselbornLine[1..14] == "Mr. Asselborn" && AsselbornLine[16..33] == " spoke in French "
  {
    var t := AsselbornLine;
    assert t[1..14] == "Mr. Asselborn";
    assert t[16..33] == " spoke in French ";
  }

  // ---------------------------------------------------------------------------
  // finditer
  // ---------------------------------------------------------------------------

  /**
   * A matcher over a text of length `n`: for each offset, the match of the
   * pattern there, if any, which starts at that offset and ends inside the
   * text after it.
   */
  ghost predicate Matcher(n: nat, at: nat -> Option<Match>) {
    forall p: nat :: at(p).Some? ==> at(p).value.start == p && p < at(p).value.end <= n
  }

  /**
   * `pattern.finditer(t[pos:])` for the matcher `at` of a pattern: try each
   * offset from `pos` on; after a match, resume at its end. The matches come
   * in order, do not overlap, and each is what the pattern matches at its
   * start.
   */
  function FindIter(n: nat, pos: nat, at: nat -> Option<Match>): (ms: seq<Match>)
    requires pos <= n && Matcher(n, at)
    ensures forall i :: 0 <= i < |ms| ==> pos <= ms[i].start < ms[i].end <= n
    ensures forall i, j :: 0 <= i < j < |ms| && j == i + 1 ==> ms[i].end <= ms[j].start
    decreases n - pos
  {
    if pos == n then []
    else
      match at(pos)
      case Some(m) => [m] + FindIter(n, m.end, at)
      case None => FindIter(n, pos + 1, at)
  }

  /** Each reported match is what the pattern matches at its start. */
  lemma {:induction false} FindIterSound(n: nat, pos: nat, at: nat -> Option<Match>, i: nat)
    requires pos <= n && Matcher(n, at) && i < |FindIter(n, pos, at)|
    ensures at(FindIter(n, pos, at)[i].start) == Some(FindIter(n, pos, at)[i])
    decreases n - pos
  {
    var ms := FindIter(n, pos, at);
    if at(pos).None? {
      FindIterSound(n, pos + 1, at, i);
    } else if i > 0 {
      var rest := FindIter(n, at(pos).value.end, at);
      assert ms[i] == rest[i - 1];
      FindIterSound(n, at(pos).value.end, at, i - 1);
    }
  }

  /** Offset `q` is the start of, or lies inside, one of the matches `ms`. */
  predicate Covered(ms: seq<Match>, q: nat) {
    exists i :: 0 <= i < |ms| && ms[i].start <= q < ms[i].end
  }

  /**
   * The scan misses nothing: every offset at which the pattern matches is
   * either the start of a reported match or lies inside an earlier one.
   */
  lemma {:induction false} FindIterMissesNothing(n: nat, pos: nat, at: nat -> Option<Match>, q: nat)
    requires pos <= q < n && Matcher(n, at) && at(q).Some?
    ensures Covered(FindIter(n, pos, at), q)
    decreases n - pos
  {
    var ms := FindIter(n, pos, at);
    if at(pos).None? {
      FindIterMissesNothing(n, pos + 1, at, q);
    } else if q < at(pos).value.end {
      assert ms[0] == at(pos).value;
    } else {
      var rest := FindIter(n, at(pos).value.end, at);
      FindIterMissesNothing(n, at(pos).value.end, at, q);
      var i :| 0 <= i < |rest| && rest[i].start <= q < rest[i].end;
      assert ms[i + 1] == rest[i];
    }
  }

  /** The matcher of `SPEECH_PATTERN` (when `strict`) or `POTENTIAL_SPEECH_PATTERN` over `t`. */
  function IntroMatcher(t: string, strict: bool): (at: nat -> Option<Match>)
    ensures Matcher(|t|, at)
  {
    (p: nat) => IntroAt(t, p, strict)
  }

  /** Every match of `SPEECH_PATTERN` in `t`, in order. */
  function StrictMatches(t: string): seq<Match> {
    FindIter(|t|, 0, IntroMatcher(t, true))
  }

  /** Every match of `POTENTIAL_SPEECH_PATTERN` in `t`, in order. */
  function PotentialMatches(t: string): seq<Match> {
    FindIter(|t|, 0, IntroMatcher(t, false))
  }

  /** Every strict country capture starts with a capital, holds no `)` and is no language note or UN title. */
  lemma StrictCountriesShaped(t: string, i: nat)
    requires i < |StrictMatches(t)|
    ensures CountryShaped(StrictMatches(t)[i].country)
  {
    FindIterSound(|t|, 0, IntroMatcher(t, true), i);
  }

  // ---------------------------------------------------------------------------
  // GENERAL_DEBATE_PATTERN, PRESIDENT_PATTERN, MEETING_END_PATTERN
  // ---------------------------------------------------------------------------

  /**
   * `\n[ \t]*general debate[ \t]*\n` (ignoring case) at `p`: the end of the
   * match, just after the second newline.
   */
  function GeneralDebateAt(t: string, p: nat): (e: Option<nat>)
    ensures e.Some? ==> p < e.value <= |t| && t[e.value - 1] == '\n'
  {
    if p < |t| && t[p] == '\n' then
      var a := SkipBlanks(t, p + 1);
      if StartsAtIgnoreCase(t, a, "general debate") then
        var w := SkipBlanks(t, a + 14);
        if w < |t| && t[w] == '\n' then Some(w + 1) else None
      else None
    else None
  }

  /** A general-debate match: where it starts and ends. */
  datatype Span = Span(start: nat, end: nat)

  /** `GENERAL_DEBATE_PATTERN.search(t[from:])`: the leftmost match. */
  function SearchGeneralDebate(t: string, from: nat): (r: Option<Span>)
    requires from <= |t|
    ensures r.Some? ==> from <= r.value.start < r.value.end <= |t| && GeneralDebateAt(t, r.value.start) == Some(r.value.end)
    ensures forall q :: from <= q < (if r.Some? then r.value.start else |t|) ==> GeneralDebateAt(t, q).None?
    decreases |t| - from
  {
    if from == |t| then None
    else
      match GeneralDebateAt(t, from)
      case Some(e) => Some(Span(from, e))
      case None => SearchGeneralDebate(t, from + 1)
  }

  /**
   * `\n[ \t]*The (?:Acting )?President(?:[ \t]*\([^)]+\))?[ \t]*:` matches
   * at `p`: the chair resumes.
   */
  predicate PresidentAt(t: string, p: nat) {
    && p < |t| && t[p] == '\n'
    && var a := SkipBlanks(t, p + 1);
    && StartsAt(t, a, "The ")
    && var b := if StartsAt(t, a + 4, "Acting ") then a + 11 else a + 4;
    && StartsAt(t, b, "President")
    && var w := SkipBlanks(t, b + 9);
    && w < |t|
    && (|| t[w] == ':'
        || (&& t[w] == '('
            && var n := FindChar(t, w + 1, ')');
            && w + 1 < n < |t|
            && var v := SkipBlanks(t, n + 1);
            && v < |t| && t[v] == ':'))
  }

  /** `\n[ \t]*The meeting rose at` matches at `p`: the meeting ends. */
  predicate MeetingEndAt(t: string, p: nat) {
    p < |t| && t[p] == '\n' && StartsAt(t, SkipBlanks(t, p + 1), "The meeting rose at")
  }

  /** `PRESIDENT_PATTERN.search(t[from:])`, as an offset into `t`. */
  function SearchPresident(t: string, from: nat): (r: Option<nat>)
    requires from <= |t|
    ensures r.Some? ==> from <= r.value < |t| && PresidentAt(t, r.value)
    ensures forall q :: from <= q < (if r.Some? then r.value else |t|) ==> !PresidentAt(t, q)
    decreases |t| - from
  {
    if from == |t| then None
    else if PresidentAt(t, from) then Some(from)
    else SearchPresident(t, from + 1)
  }

  /** `MEETING_END_PATTERN.search(t[from:])`, as an offset into `t`. */
  function SearchMeetingEnd(t: string, from: nat): (r: Option<nat>)
    requires from <= |t|
    ensures r.Some? ==> from <= r.value < |t| && MeetingEndAt(t, r.value)
    ensures forall q :: from <= q < (if r.Some? then r.value else |t|) ==> !MeetingEndAt(t, q)
    decreases |t| - from
  {
    if from == |t| then None
    else if MeetingEndAt(t, from) then Some(from)
    else SearchMeetingEnd(t, from + 1)
  }

  // ---------------------------------------------------------------------------
  // HEAD_OF_STATE_PATTERN
  // ---------------------------------------------------------------------------

  /** `w` (ignoring case) at `i`, followed by at least one space (`\s+`). */
  predicate WordThenSpace(s: string, i: nat, w: string) {
    StartsAtIgnoreCase(s, i, w) && i + |w| < |s| && IsSpace(s[i + |w|])
  }

  /**
   * `^(?:President|Prime\s+Minister|Sheikh)\s+` (ignoring case) matches the
   * start of the speaker field.
   */
  predicate IsHeadOfState(speaker: string) {
    || WordThenSpace(speaker, 0, "president")
    || (StartsAtIgnoreCase(speaker, 0, "prime")
        && SkipSpaces(speaker, 5) > 5
        && WordThenSpace(speaker, SkipSpaces(speaker, 5), "minister"))
    || WordThenSpace(speaker, 0, "sheikh")
  }

  /** `President`, a space and a name is a head of state. */
  lemma PresidentIsHeadOfState(name: string)
    ensures IsHeadOfState("President " + name)
  {
    var s := "President " + name;
    assert forall k :: 0 <= k < 10 ==> s[k] == "President "[k];
  }

  /** `Prime Minister`, a space and a name is a head of state. */
  lemma PrimeMinisterIsHeadOfState(name: string)
    ensures IsHeadOfState("Prime Minister " + name)
  {
    var s := "Prime Minister " + name;
    assert forall k :: 0 <= k < 15 ==> s[k] == "Prime Minister "[k];
    assert SkipSpaces(s, 5) == 6;
    assert WordThenSpace(s, 6, "minister");
  }

  /** `Sheikh`, a space and a name is a head of state. */
  lemma SheikhIsHeadOfState(name: string)
    ensures IsHeadOfState("Sheikh " + name)
  {
    var s := "Sheikh " + name;
    assert forall k :: 0 <= k < 7 ==> s[k] == "Sheikh "[k];
  }

  /** A flagged speaker opens with `p` or `s` in either case, so no `Mr.`, `Mrs.` or `Ms.` is flagged. */
  lemma HeadOfStateInitial(speaker: string)
    requires IsHeadOfState(speaker)
    ensures speaker != [] && (Lower(speaker[0]) == 'p' || Lower(speaker[0]) == 's')
  {
    if WordThenSpace(speaker, 0, "president") {
      assert Lower(speaker[0]) == "president"[0];
    } else if WordThenSpace(speaker, 0, "sheikh") {
      assert Lower(speaker[0]) == "sheikh"[0];
    } else {
      assert Lower(speaker[0]) == "prime"[0];
    }
  }

  /** `Mr. ` followed by any name is not a head of state. */
  lemma MisterNotHeadOfState(name: string)
    ensures !IsHeadOfState("Mr. " + name)
  {
    var s := "Mr. " + name;
    assert s[0] == 'M';
    if IsHeadOfState(s) {
      HeadOfStateInitial(s);
    }
  }
}
