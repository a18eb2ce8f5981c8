/**
 * `sanitize_filename`: the country part of a speech's output file name.
 * Accented letters are decomposed and their combining marks dropped, then
 * spaces and thirteen filesystem-unsafe characters are removed (omitted, not
 * replaced).
 */
module Sanitize {

  /**
   * Canonical decompositions of the precomposed letters that occur in the
   * country names of the reference tables (a subset of Unicode NFKD).
   */
  const Decompositions: map<char, string> := map[
    '\U{e9}' := "e\U{301}",   // é
    '\U{e8}' := "e\U{300}",   // è
    '\U{ea}' := "e\U{302}",   // ê
    '\U{c9}' := "E\U{301}",   // É
    '\U{e1}' := "a\U{301}",   // á
    '\U{e3}' := "a\U{303}",   // ã
    '\U{ed}' := "i\U{301}",   // í
    '\U{f3}' := "o\U{301}",   // ó
    '\U{f4}' := "o\U{302}",   // ô
    '\U{fc}' := "u\U{308}",   // ü
    '\U{e7}' := "c\U{327}",   // ç
    '\U{f1}' := "n\U{303}"    // ñ
  ]

  /**
   * `unicodedata.combining(c) != 0` for the Combining Diacritical Marks block
   * (U+0300 to U+036F); U+034F, the grapheme joiner, has combining class 0.
   */
  predicate IsCombining(c: char) {
    '\U{300}' <= c <= '\U{36f}' && c != '\U{34f}'
  }

  /** `unicodedata.normalize('NFKD', s)` over the decompositions above. */
  function Nfkd(s: string): (r: string)
    ensures forall k :: 0 <= k < |r| ==> r[k] !in Decompositions
  {
    if s == [] then []
    else
      var head := if s[0] in Decompositions then Decompositions[s[0]] else [s[0]];
      assert forall k :: 0 <= k < |head| ==> head[k] !in Decompositions;
      head + Nfkd(s[1..])
  }

  /** `''.join(c for c in s if not unicodedata.combining(c))`. */
  function StripCombining(s: string): (r: string)
    ensures forall k :: 0 <= k < |r| ==> !IsCombining(r[k])
    ensures forall k :: 0 <= k < |r| ==> r[k] in s
  {
    if s == [] then []
    else (if IsCombining(s[0]) then [] else [s[0]]) + StripCombining(s[1..])
  }

  /** Dropping combining marks keeps every other character as often as it occurs. */
  lemma {:induction false} StripCombiningCounts(s: string, x: char)
    ensures multiset(StripCombining(s))[x] == if IsCombining(x) then 0 else multiset(s)[x]
  {
    if s != [] {
      assert s == [s[0]] + s[1..];
      StripCombiningCounts(s[1..], x);
    }
  }

  /** `s.replace(c, '')`: `s` with every occurrence of `c` omitted. */
  function RemoveChar(s: string, c: char): (r: string)
    ensures c !in r
    ensures forall k :: 0 <= k < |r| ==> r[k] in s
    ensures multiset(r) == multiset(s)[c := 0]
  {
    if s == [] then []
    else
      assert s == [s[0]] + s[1..];
      (if s[0] == c then [] else [s[0]]) + RemoveChar(s[1..], c)
  }

  /** The characters the loop removes after the spaces, in the source's order. */
  const UnsafeChars: seq<char> := ['/', '\\', ':', '*', '?', '"', '<', '>', '|', '\'', ',', '.', ';']

  /** `s` after `s = s.replace(c, '')` for each `c` of `cs` in turn. */
  function RemoveAll(s: string, cs: seq<char>): (r: string)
    ensures forall k :: 0 <= k < |r| ==> r[k] in s && r[k] !in cs
    decreases |cs|
  {
    if cs == [] then s
    else
      var prefix := cs[..|cs| - 1];
      assert cs == prefix + [cs[|cs| - 1]];
      RemoveChar(RemoveAll(s, prefix), cs[|cs| - 1])
  }

  /** Removing the listed characters keeps every other character as often as it occurs. */
  lemma {:induction false} RemoveAllCounts(s: string, cs: seq<char>, x: char)
    ensures multiset(RemoveAll(s, cs))[x] == if x in cs then 0 else multiset(s)[x]
    decreases |cs|
  {
    if cs != [] {
      var prefix := cs[..|cs| - 1];
      assert cs == prefix + [cs[|cs| - 1]];
      RemoveAllCounts(s, prefix, x);
    }
  }

  /** What `sanitize_filename(name)` returns. */
  function Sanitized(name: string): string {
    RemoveAll(RemoveChar(StripCombining(Nfkd(name)), ' '), UnsafeChars)
  }

  /**
   * `sanitize_filename(name)`: normalises, drops combining marks, removes
   * the spaces and then each unsafe character in turn.
   */
  method SanitizeFilename(name: string) returns (r: string)
    ensures r == Sanitized(name)
  {
    var spaceless := RemoveChar(StripCombining(Nfkd(name)), ' ');
    r := spaceless;
    var i := 0;
    while i < |UnsafeChars|
      invariant 0 <= i <= |UnsafeChars|
      invariant r == RemoveAll(spaceless, UnsafeChars[..i])
    {
      RemoveAllNext(spaceless, UnsafeChars, i);
      r := RemoveChar(r, UnsafeChars[i]);
      i := i + 1;
    }
    assert UnsafeChars[..i] == UnsafeChars;
  }

  /** Removing one more character of `cs` extends the removals so far. */
  lemma RemoveAllNext(s: string, cs: seq<char>, i: nat)
    requires i < |cs|
    ensures RemoveAll(s, cs[..i + 1]) == RemoveChar(RemoveAll(s, cs[..i]), cs[i])
  {
    assert cs[..i + 1][..i] == cs[..i];
  }

  /** A file-name token holds no space, no unsafe character and no combining mark. */
  lemma SanitizedIsSafe(name: string, k: nat)
    requires k < |Sanitized(name)|
    ensures Sanitized(name)[k] != ' ' && Sanitized(name)[k] !in UnsafeChars && !IsCombining(Sanitized(name)[k])
  {
    var b := StripCombining(Nfkd(name));
    var c := Sanitized(name)[k];
    assert c in RemoveChar(b, ' ');
    var j :| 0 <= j < |RemoveChar(b, ' ')| && RemoveChar(b, ' ')[j] == c;
    assert c in b;
  }

  lemma {:induction false} NfkdIdentity(s: string)
    requires forall k :: 0 <= k < |s| ==> s[k] !in Decompositions
    ensures Nfkd(s) == s
  {
    if s != [] {
      NfkdIdentity(s[1..]);
    }
  }

  lemma {:induction false} StripCombiningIdentity(s: string)
    requires forall k :: 0 <= k < |s| ==> !IsCombining(s[k])
    ensures StripCombining(s) == s
  {
    if s != [] {
      StripCombiningIdentity(s[1..]);
    }
  }

  lemma {:induction false} RemoveCharIdentity(s: string, c: char)
    requires c !in s
    ensures RemoveChar(s, c) == s
  {
    if s != [] {
      RemoveCharIdentity(s[1..], c);
    }
  }

  lemma {:induction false} RemoveAllIdentity(s: string, cs: seq<char>)
    requires forall k :: 0 <= k < |s| ==> s[k] !in cs
    ensures RemoveAll(s, cs) == s
    decreases |cs|
  {
    if cs != [] {
      var prefix := cs[..|cs| - 1];
      RemoveAllIdentity(s, prefix);
      RemoveCharIdentity(s, cs[|cs| - 1]);
    }
  }

  /** Sanitising is idempotent: a sanitised name is its own sanitisation. */
  lemma SanitizedIdempotent(name: string)
    ensures Sanitized(Sanitized(name)) == Sanitized(name)
  {
    var n := Nfkd(name);
    var b := StripCombining(n);
    var r := Sanitized(name);
    forall k | 0 <= k < |r| ensures r[k] !in Decompositions && !IsCombining(r[k]) && r[k] != ' ' && r[k] !in UnsafeChars {
      SanitizedIsSafe(name, k);
      assert r[k] in RemoveChar(b, ' ');
      var j :| 0 <= j < |RemoveChar(b, ' ')| && RemoveChar(b, ' ')[j] == r[k];
      assert r[k] in b;
      var i :| 0 <= i < |b| && b[i] == r[k];
      assert b[i] in n;
    }
    NfkdIdentity(r);
    StripCombiningIdentity(r);
    RemoveCharIdentity(r, ' ');
    RemoveAllIdentity(r, UnsafeChars);
  }
  // ---------------------------------------------------------------------------
  // Every step keeps the characters it does not remove, in order
  // ---------------------------------------------------------------------------

  lemma {:induction false} NfkdAppend(a: string, b: string)
    ensures Nfkd(a + b) == Nfkd(a) + Nfkd(b)
  {
    if a == [] {
      assert a + b == b;
    } else {
      assert (a + b)[0] == a[0] && (a + b)[1..] == a[1..] + b;
      NfkdAppend(a[1..], b);
    }
  }

  /** Dropping combining marks works character by character: it keeps the others in order. */
  lemma {:induction false} StripCombiningAppend(a: string, b: string)
    ensures StripCombining(a + b) == StripCombining(a) + StripCombining(b)
  {
    if a == [] {
      assert a + b == b;
    } else {
      assert (a + b)[0] == a[0] && (a + b)[1..] == a[1..] + b;
      StripCombiningAppend(a[1..], b);
    }
  }

  /** `replace(c, '')` works character by character: it keeps every other character in order. */
  lemma {:induction false} RemoveCharAppend(a: string, b: string, c: char)
    ensures RemoveChar(a + b, c) == RemoveChar(a, c) + RemoveChar(b, c)
  {
    if a == [] {
      assert a + b == b;
    } else {
      assert (a + b)[0] == a[0] && (a + b)[1..] == a[1..] + b;
      RemoveCharAppend(a[1..], b, c);
    }
  }

  /** Removing each listed character in turn works character by character too. */
  lemma {:induction false} RemoveAllAppend(a: string, b: string, cs: seq<char>)
    ensures RemoveAll(a + b, cs) == RemoveAll(a, cs) + RemoveAll(b, cs)
    decreases |cs|
  {
    if cs != [] {
      var prefix := cs[..|cs| - 1];
      RemoveAllAppend(a, b, prefix);
      RemoveCharAppend(RemoveAll(a, prefix), RemoveAll(b, prefix), cs[|cs| - 1]);
    }
  }

  /** Sanitising a concatenation sanitises each part. */
  lemma SanitizedAppend(a: string, b: string)
    ensures Sanitized(a + b) == Sanitized(a) + Sanitized(b)
  {
    NfkdAppend(a, b);
    StripCombiningAppend(Nfkd(a), Nfkd(b));
    RemoveCharAppend(StripCombining(Nfkd(a)), StripCombining(Nfkd(b)), ' ');
    RemoveAllAppend(RemoveChar(StripCombining(Nfkd(a)), ' '), RemoveChar(StripCombining(Nfkd(b)), ' '), UnsafeChars);
  }

  /** A character that `sanitize_filename` drops: a space, an unsafe character or a combining mark. */
  predicate Dropped(x: char) {
    x == ' ' || x in UnsafeChars || IsCombining(x)
  }

  /**
   * What one character of the name becomes: its base letter when it is a
   * precomposed letter of the table, nothing when it is dropped, and itself
   * otherwise.
   */
  function CharImage(x: char): string {
    if x in Decompositions then [Decompositions[x][0]]
    else if Dropped(x) then []
    else [x]
  }

  /** Each decomposition is a kept base letter followed by one combining mark. */
  lemma DecompositionsShape(x: char)
    requires x in Decompositions
    ensures |Decompositions[x]| == 2
    ensures !Dropped(Decompositions[x][0]) && Decompositions[x][0] !in Decompositions
    ensures IsCombining(Decompositions[x][1])
  {
  }

  /** A kept base letter followed by a combining mark comes out as the base letter. */
  lemma {:induction false} KeepsBase(d: string)
    requires |d| == 2 && !Dropped(d[0]) && IsCombining(d[1])
    ensures RemoveAll(RemoveChar(StripCombining(d), ' '), UnsafeChars) == [d[0]]
  {
    assert d == [d[0]] + [d[1]];
    StripCombiningAppend([d[0]], [d[1]]);
    assert StripCombining([d[1]]) == [];
    StripCombiningIdentity([d[0]]);
    RemoveCharIdentity([d[0]], ' ');
    RemoveAllIdentity([d[0]], UnsafeChars);
  }

  /** A precomposed letter of the table is sanitised to its base letter. */
  lemma {:induction false} SanitizedDecomposed(x: char)
    requires x in Decompositions
    ensures Sanitized([x]) == [Decompositions[x][0]]
  {
    DecompositionsShape(x);
    var d := Decompositions[x];
    assert [x][1..] == [];
    assert Nfkd([x]) == d;
    KeepsBase(d);
  }

  /** Any other character is dropped or kept as it is. */
  lemma {:induction false} SanitizedUndecomposed(x: char)
    requires x !in Decompositions
    ensures Sanitized([x]) == if Dropped(x) then [] else [x]
  {
    NfkdIdentity([x]);
    if IsCombining(x) {
      assert StripCombining([x]) == [];
      RemoveCharIdentity([], ' ');
      RemoveAllIdentity([], UnsafeChars);
    } else {
      StripCombiningIdentity([x]);
      if x == ' ' {
        assert RemoveChar([x], ' ') == [];
        RemoveAllIdentity([], UnsafeChars);
      } else {
        RemoveCharIdentity([x], ' ');
        if x in UnsafeChars {
          var r := RemoveAll([x], UnsafeChars);
          forall y | true
            ensures multiset(r)[y] == 0
          {
            RemoveAllCounts([x], UnsafeChars, y);
          }
          assert multiset(r) == multiset{};
        } else {
          RemoveAllIdentity([x], UnsafeChars);
        }
      }
    }
  }

  /** A single character is sanitised to its image. */
  lemma SanitizedChar(x: char)
    ensures Sanitized([x]) == CharImage(x)
  {
    if x in Decompositions {
      SanitizedDecomposed(x);
    } else {
      SanitizedUndecomposed(x);
    }
  }

  /** The per-character images of `name`, laid end to end. */
  function Images(name: string): string {
    if name == [] then [] else CharImage(name[0]) + Images(name[1..])
  }

  /**
   * `sanitize_filename` transliterates, drops and keeps character by
   * character: every character of the name that is not a space, not unsafe,
   * not a combining mark and not a precomposed letter survives, in order, and
   * a precomposed letter becomes its base letter.
   */
  lemma {:induction false} SanitizedIsImages(name: string)
    ensures Sanitized(name) == Images(name)
  {
    if name == [] {
      assert Nfkd(name) == [];
      assert StripCombining([]) == [];
      RemoveCharIdentity([], ' ');
      RemoveAllIdentity([], UnsafeChars);
    } else {
      assert name == [name[0]] + name[1..];
      SanitizedAppend([name[0]], name[1..]);
      SanitizedChar(name[0]);
      SanitizedIsImages(name[1..]);
    }
  }
}
