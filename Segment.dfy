/**
 * What `split_texts` computes for one meeting transcript, as functions of the
 * transcript and of the run so far: the speech starts the strict pattern
 * finds, the lines the loose pattern flags, the span and metadata of every
 * speech, the meeting rollup, and the run state after the file.
 *
 * The method that performs these steps one by one, `Splitter.Extractor`,
 * is proved to produce exactly these values.
 */
module Segment {
  import opened Wrappers
  import opened Text
  import Format
  import Tables
  import Sanitize
  import opened Patterns

  /** The reason recorded for a file without a general-debate heading. */
  const NoDebateReason: string := "No general debate pattern found"

  /** The reason recorded for a flagged introduction line. */
  const StrictFailureReason: string := "Potential speech - failed strict pattern validation"

  /** The longest excerpt of a flagged line that is kept. */
  const ExcerptLength: nat := 100

  // ---------------------------------------------------------------------------
  // Speech starts
  // ---------------------------------------------------------------------------

  /**
   * One entry of `speeches`: the stripped speaker, country and language note
   * of a strict match, where its speech text starts (the end of the match)
   * and where its introduction line starts.
   */
  datatype SpeechStart = SpeechStart(speaker: string, country: string, language: Option<string>, start: nat, matchStart: nat)

  /** The `speeches` entry for a strict match. */
  function StartOf(m: Match): SpeechStart {
    SpeechStart(
      Strip(m.speaker),
      Strip(m.country),
      if m.language.Some? then Some(Strip(m.language.value)) else None,
      m.end,
      m.start)
  }

  /** The `speeches` list for the strict matches `ms`. */
  function SpeechStarts(ms: seq<Match>): (ss: seq<SpeechStart>)
    ensures |ss| == |ms|
    decreases |ms|
  {
    if ms == [] then [] else SpeechStarts(ms[..|ms| - 1]) + [StartOf(ms[|ms| - 1])]
  }

  /** `strict_match_positions`: where the strict matches `ms` start. */
  function MatchStarts(ms: seq<Match>): set<nat> {
    set k | 0 <= k < |ms| :: ms[k].start
  }

  /**
   * Speech starts within a text of length `n`, in order: each introduction
   * line ends where its speech starts, and the next introduction line starts
   * at or after that.
   */
  ghost predicate ValidStarts(n: nat, ss: seq<SpeechStart>) {
    && (forall i :: 0 <= i < |ss| ==> ss[i].matchStart < ss[i].start <= n)
    && (forall i, j :: 0 <= i < j < |ss| && j == i + 1 ==> ss[i].start <= ss[j].matchStart)
  }

  /** Each entry of `SpeechStarts(ms)` is the entry of the match at the same index. */
  lemma {:induction false} SpeechStartsAt(ms: seq<Match>, k: nat)
    requires k < |ms|
    ensures SpeechStarts(ms)[k] == StartOf(ms[k])
    decreases |ms|
  {
    if k < |ms| - 1 {
      SpeechStartsAt(ms[..|ms| - 1], k);
    }
  }

  /** The speech starts of the strict matches of a text are in order and inside it. */
  lemma StrictStartsValid(t: string)
    ensures ValidStarts(|t|, SpeechStarts(StrictMatches(t)))
  {
    var ms := StrictMatches(t);
    var ss := SpeechStarts(ms);
    forall i | 0 <= i < |ss| ensures ss[i].matchStart < ss[i].start <= |t| {
      SpeechStartsAt(ms, i);
    }
    forall i, j | 0 <= i < j < |ss| && j == i + 1 ensures ss[i].start <= ss[j].matchStart {
      SpeechStartsAt(ms, i);
      SpeechStartsAt(ms, j);
    }
  }

  /** The stored country of every speech is non-empty, opens with a capital and holds no `)`. */
  lemma StoredCountryShaped(t: string, k: nat)
    requires k < |StrictMatches(t)|
    ensures var c := SpeechStarts(StrictMatches(t))[k].country;
      c != [] && IsUpper(c[0]) && ')' !in c
  {
    var ms := StrictMatches(t);
    SpeechStartsAt(ms, k);
    StrictCountriesShaped(t, k);
    StripKeepsHead(ms[k].country);
    StripWithin(ms[k].country, ')');
  }

  /** An earlier speech starts no later than any later introduction line. */
  lemma {:induction false} StartsOrdered(n: nat, ss: seq<SpeechStart>, i: nat, j: nat)
    requires ValidStarts(n, ss) && i < j < |ss|
    ensures ss[i].start <= ss[j].matchStart
    decreases j - i
  {
    if i + 1 < j {
      StartsOrdered(n, ss, i + 1, j);
    }
  }

  // ---------------------------------------------------------------------------
  // Speech spans
  // ---------------------------------------------------------------------------

  /** Where the next introduction line starts, or the end of the section after the last speech. */
  function NextStart(n: nat, ss: seq<SpeechStart>, i: nat): nat
    requires i < |ss|
  {
    if i + 1 < |ss| then ss[i + 1].matchStart else n
  }

  function Min(a: nat, b: nat): nat {
    if a <= b then a else b
  }

  /**
   * `end = min(end_candidates)`: the speech that starts at `ss[i].start`
   * ends at the next introduction line, the chair resuming, or the meeting
   * rising, whichever comes first.
   */
  function SpanEnd(t: string, ss: seq<SpeechStart>, i: nat): (end: nat)
    requires ValidStarts(|t|, ss) && i < |ss|
    ensures ss[i].start <= end <= NextStart(|t|, ss, i)
  {
    var next := NextStart(|t|, ss, i);
    var a := match SearchPresident(t, ss[i].start)
      case Some(p) => Min(next, p)
      case None => next;
    match SearchMeetingEnd(t, ss[i].start)
    case Some(p) => Min(a, p)
    case None => a
  }

  /**
   * No President or adjournment line starts inside the span of speech `i`,
   * and the span ends at the next introduction line or at such a line.
   */
  lemma SpanEndStops(t: string, ss: seq<SpeechStart>, i: nat)
    requires ValidStarts(|t|, ss) && i < |ss|
    ensures forall p :: ss[i].start <= p < SpanEnd(t, ss, i) ==> !PresidentAt(t, p) && !MeetingEndAt(t, p)
    ensures SpanEnd(t, ss, i) == NextStart(|t|, ss, i) || PresidentAt(t, SpanEnd(t, ss, i)) || MeetingEndAt(t, SpanEnd(t, ss, i))
  {
  }

  /** `speech_text`: the stripped text of speech `i`. */
  function SpeechText(t: string, ss: seq<SpeechStart>, i: nat): string
    requires ValidStarts(|t|, ss) && i < |ss|
  {
    Strip(t[ss[i].start..SpanEnd(t, ss, i)])
  }

  /**
   * Speech spans are disjoint and in order: every speech ends before the
   * introduction line of any later speech.
   */
  lemma SpansDisjoint(t: string, ss: seq<SpeechStart>, i: nat, j: nat)
    requires ValidStarts(|t|, ss) && i < j < |ss|
    ensures SpanEnd(t, ss, i) <= ss[j].matchStart < ss[j].start
  {
    if i + 1 < j {
      StartsOrdered(|t|, ss, i + 1, j);
    }
  }

  // ---------------------------------------------------------------------------
  // Speech metadata
  // ---------------------------------------------------------------------------

  /** Membership of one organisation: listed at all, join year, member in the speech's year. */
  datatype OrgStatus = OrgStatus(member: bool, joined: Option<int>, atSpeech: bool)

  /**
   * The `is_*_member`, `*_joined` and `*_at_speech` columns for one table;
   * raises where `is_member_at_time` does.
   */
  function Status(country: string, members: map<string, int>, year: Option<int>,
                  exits: Option<map<string, int>>): (r: Result<OrgStatus, Tables.PyError>)
    ensures r.Err? <==> year.None? && country in members
    ensures r.Ok? ==> (r.value.member <==> country in members) && (r.value.joined.Some? <==> country in members)
    ensures r.Ok? && r.value.joined.Some? ==> r.value.joined.value == members[country]
    ensures r.Ok? && r.value.atSpeech ==> r.value.member && year.Some? && r.value.joined.value <= year.value
  {
    match Tables.IsMemberAtTime(country, members, year, exits)
    case Err(e) => Err(e)
    case Ok(b) => Ok(OrgStatus(country in members, Tables.Lookup(members, country), b))
  }

  /** The country is listed in one of the five tables `is_member_at_time` is called with. */
  predicate InSomeTable(tables: Tables.Reference, country: string) {
    || country in tables.focac
    || country in tables.cascf
    || country in tables.sco
    || country in tables.bri
    || country in tables.celac
  }

  /** `language`: the language note when present and non-empty, English otherwise. */
  function LanguageOf(note: Option<string>): (language: string)
    ensures language != []
    ensures note.Some? && note.value != [] ==> language == note.value
    ensures note.None? || note.value == [] ==> language == "English"
  {
    if note.Some? && note.value != [] then note.value else "English"
  }

  /** The offset of the last `c` in `s`, or -1 (`str.rfind`). */
  function LastIndexOf(s: string, c: char): (r: int)
    ensures -1 <= r < |s|
    ensures r >= 0 ==> s[r] == c
    ensures forall k :: r < k < |s| ==> s[k] != c
    decreases |s|
  {
    if s == [] then -1
    else if s[|s| - 1] == c then |s| - 1
    else LastIndexOf(s[..|s| - 1], c)
  }

  /**
   * `os.path.splitext(path)[0]`: `path` without its extension, the part from
   * the last `.` of the last path component on, when that `.` follows some
   * character of the component other than a dot.
   */
  function Stem(path: string): (stem: string)
    ensures stem <= path
  {
    var sep := LastIndexOf(path, '/');
    var dot := LastIndexOf(path, '.');
    if dot > sep && exists k :: sep < k < dot && path[k] != '.' then path[..dot] else path
  }

  /** The stem of a file name with an extension is the name without that extension. */
  lemma StemDropsExtension(base: string, ext: string)
    requires '/' !in base && '/' !in ext && '.' !in ext
    requires exists k :: 0 <= k < |base| && base[k] != '.'
    ensures Stem(base + "." + ext) == base
  {
    var path := base + "." + ext;
    var k :| 0 <= k < |base| && base[k] != '.';
    assert path[k] == base[k];
    assert path[|base|] == '.';
    assert forall j :: |base| < j < |path| ==> path[j] == ext[j - |base| - 1];
    assert LastIndexOf(path, '.') == |base|;
    assert forall j :: 0 <= j < |path| ==> path[j] != '/';
    assert path[..|base|] == base;
  }

  /** A name without a dot is its own stem. */
  lemma StemWithoutDot(path: string)
    requires '.' !in path
    ensures Stem(path) == path
  {
  }

  /** `speech_filename`. */
  function OutputFile(speechId: string, filename: string, country: string): (file: string)
    ensures speechId + "_" <= file
    ensures IsTxt(file)
  {
    NamedTxt(speechId, Stem(filename), Sanitize.Sanitized(country));
    speechId + "_" + Stem(filename) + "_" + Sanitize.Sanitized(country) + ".txt"
  }

  /** `id_stem_country.txt` starts with `id_` and is a `.txt` name. */
  lemma NamedTxt(id: string, stem: string, country: string)
    ensures var file := id + "_" + stem + "_" + country + ".txt";
      id + "_" <= file && IsTxt(file)
  {
    var file := id + "_" + stem + "_" + country + ".txt";
    assert file[..|id| + 1] == id + "_";
    TxtNames(id + "_" + stem + "_" + country);
  }

  /** A transcript `base.txt` gives the file name `<id>_<base>_<sanitised country>.txt`. */
  lemma OutputFileOfTranscript(speechId: string, base: string, country: string)
    requires '/' !in base && exists k :: 0 <= k < |base| && base[k] != '.'
    ensures OutputFile(speechId, base + ".txt", country) == speechId + "_" + base + "_" + Sanitize.Sanitized(country) + ".txt"
  {
    StemDropsExtension(base, "txt");
    assert base + "." + "txt" == base + ".txt";
  }

  /** Names that open with different identifiers of the same `speech_<digits>` shape, each followed by `_`, differ. */
  lemma IdPrefixedDistinct(ia: string, ib: string, ra: string, rb: string)
    requires ia != ib && 7 <= |ia| && 7 <= |ib|
    requires forall k :: 7 <= k < |ia| ==> Format.IsDigit(ia[k])
    requires forall k :: 7 <= k < |ib| ==> Format.IsDigit(ib[k])
    requires ia + "_" <= ra && ib + "_" <= rb
    ensures ra != rb
  {
    assert ra[|ia|] == '_' && rb[|ib|] == '_';
    if |ia| < |ib| {
      assert rb[|ia|] == ib[|ia|];
    } else if |ib| < |ia| {
      assert ra[|ib|] == ia[|ib|];
    } else {
      assert ra[..|ia|] == ia && rb[..|ib|] == ib;
    }
  }

  /** Speeches with different counter values are written to different files, whatever their meetings and countries. */
  lemma OutputFilesDistinct(a: nat, b: nat, fa: string, fb: string, ca: string, cb: string)
    requires a != b
    ensures OutputFile(Format.SpeechId(a), fa, ca) != OutputFile(Format.SpeechId(b), fb, cb)
  {
    Format.SpeechIdInjective(a, b);
    Format.SpeechIdRoundTrip(a);
    Format.SpeechIdRoundTrip(b);
    IdPrefixedDistinct(Format.SpeechId(a), Format.SpeechId(b), OutputFile(Format.SpeechId(a), fa, ca), OutputFile(Format.SpeechId(b), fb, cb));
  }

  /** One row of `all_speeches`, with the text written to the speech's file. */
  datatype SpeechRecord = SpeechRecord(
    speechId: string,
    meetingId: string,
    session: string,
    year: Option<int>,
    sourceFile: string,
    outputFile: string,
    speaker: string,
    country: string,
    region: string,
    language: string,
    wordCount: nat,
    paragraphCount: nat,
    isHeadOfState: bool,
    focac: OrgStatus,
    cascf: OrgStatus,
    sco: OrgStatus,
    bri: OrgStatus,
    briExited: Option<int>,
    celac: OrgStatus,
    text: string)

  /** The membership columns of one row. */
  datatype Orgs = Orgs(focac: OrgStatus, cascf: OrgStatus, sco: OrgStatus, bri: OrgStatus, briExited: Option<int>, celac: OrgStatus)

  /**
   * The membership columns of a speech by `country` in `year`, evaluated in
   * the source's order (FOCAC, CASCF, SCO, BRI with its exits, CELAC); raises
   * exactly when the year is unknown and the country is listed somewhere.
   */
  function Memberships(tables: Tables.Reference, country: string, year: Option<int>): (r: Result<Orgs, Tables.PyError>)
    ensures r.Err? <==> year.None? && InSomeTable(tables, country)
    ensures r.Ok? ==> (r.value.briExited.Some? <==> country in tables.briExited)
    ensures r.Ok? && year.Some? && country in tables.briExited && year.value >= tables.briExited[country] ==> !r.value.bri.atSpeech
  {
    var focac := Status(country, tables.focac, year, None);
    var cascf := Status(country, tables.cascf, year, None);
    var sco := Status(country, tables.sco, year, None);
    var bri := Status(country, tables.bri, year, Some(tables.briExited));
    var celac := Status(country, tables.celac, year, None);
    if focac.Err? || cascf.Err? || sco.Err? || bri.Err? || celac.Err? then Err(Tables.TypeError)
    else Ok(Orgs(focac.value, cascf.value, sco.value, bri.value, Tables.Lookup(tables.briExited, country), celac.value))
  }

  /**
   * The row for speech `i` of the file `filename` in session directory
   * `session`, numbered `n` by the global counter. Raises exactly when the
   * session has no year and the country is listed in a membership table.
   */
  function Enrich(tables: Tables.Reference, session: string, filename: string, t: string, ss: seq<SpeechStart>, i: nat, n: nat): (r: Result<SpeechRecord, Tables.PyError>)
    requires ValidStarts(|t|, ss) && i < |ss|
    ensures r.Err? <==> Memberships(tables, ss[i].country, Tables.GetYear(tables, session)).Err?
    ensures r.Ok? ==> r.value.speechId == Format.SpeechId(n) && r.value.language != []
    ensures r.Ok? ==> (r.value.wordCount == 0 <==> AllSpace(r.value.text))
  {
    var s := ss[i];
    var year := Tables.GetYear(tables, session);
    match Memberships(tables, s.country, year)
    case Err(e) => Err(e)
    case Ok(orgs) =>
      var text := SpeechText(t, ss, i);
      var id := Format.SpeechId(n);
      WordCountZeroIffBlank(text);
      Ok(SpeechRecord(
        id, Stem(filename), session, year, filename, OutputFile(id, filename, s.country),
        s.speaker, s.country, Tables.GetRegion(tables, s.country), LanguageOf(s.language),
        WordCount(text), ParagraphCount(text), IsHeadOfState(s.speaker),
        orgs.focac, orgs.cascf, orgs.sco, orgs.bri, orgs.briExited, orgs.celac,
        text))
  }

  /** What enriching speech `k` yields when the counter stood at `counter` before the file. */
  function Outcome(tables: Tables.Reference, session: string, filename: string, t: string, ss: seq<SpeechStart>, counter: nat, k: nat): Result<SpeechRecord, Tables.PyError>
    requires ValidStarts(|t|, ss) && k < |ss|
  {
    Enrich(tables, session, filename, t, ss, k, counter + k + 1)
  }

  /** What enriching each speech of the file yields. */
  function Outcomes(tables: Tables.Reference, session: string, filename: string, t: string, ss: seq<SpeechStart>, counter: nat): (os: seq<Result<SpeechRecord, Tables.PyError>>)
    requires ValidStarts(|t|, ss)
    ensures |os| == |ss|
  {
    seq(|ss|, k requires 0 <= k < |ss| => Outcome(tables, session, filename, t, ss, counter, k))
  }

  /** The rows appended for the first speeches, and whether a speech raised. */
  datatype Built = Built(records: seq<SpeechRecord>, raised: bool)

  /**
   * The speech loop over the first `n` outcomes: it appends the row of each
   * speech and stops at the first speech that raises, whose row is never
   * appended.
   */
  function Collect(os: seq<Result<SpeechRecord, Tables.PyError>>, n: nat): (b: Built)
    requires n <= |os|
    ensures |b.records| <= n
    ensures !b.raised ==> |b.records| == n
    ensures b.raised ==> |b.records| < n
    decreases n
  {
    if n == 0 then Built([], false)
    else
      var prev := Collect(os, n - 1);
      if prev.raised then prev
      else
        match os[n - 1]
        case Ok(r) => Built(prev.records + [r], false)
        case Err(_) => Built(prev.records, true)
  }

  /**
   * The rows are the outcomes of the first speeches, in order, and when the
   * loop stopped, the outcome of the next speech is the error it raised.
   */
  lemma {:induction false} CollectRows(os: seq<Result<SpeechRecord, Tables.PyError>>, n: nat)
    requires n <= |os|
    ensures var b := Collect(os, n);
      && (forall k :: 0 <= k < |b.records| ==> os[k] == Ok(b.records[k]))
      && (b.raised ==> os[|b.records|].Err?)
    decreases n
  {
    if n > 0 {
      CollectRows(os, n - 1);
    }
  }

  /** Once a speech has raised, later speeches change nothing. */
  lemma {:induction false} CollectStops(os: seq<Result<SpeechRecord, Tables.PyError>>, n: nat, m: nat)
    requires n <= m <= |os| && Collect(os, n).raised
    ensures Collect(os, m) == Collect(os, n)
    decreases m - n
  {
    if n < m {
      CollectStops(os, n, m - 1);
    }
  }

  /** When no outcome is an error, every speech gets its row. */
  lemma {:induction false} CollectAll(os: seq<Result<SpeechRecord, Tables.PyError>>, n: nat)
    requires n <= |os| && forall k :: 0 <= k < |os| ==> os[k].Ok?
    ensures !Collect(os, n).raised
    decreases n
  {
    if n > 0 {
      CollectAll(os, n - 1);
    }
  }

  /** Outcome `k` is the enrichment of speech `k` numbered `counter + k + 1`. */
  lemma OutcomeAt(tables: Tables.Reference, session: string, filename: string, t: string, ss: seq<SpeechStart>, counter: nat, k: nat)
    requires ValidStarts(|t|, ss) && k < |ss|
    ensures Outcomes(tables, session, filename, t, ss, counter)[k] == Enrich(tables, session, filename, t, ss, k, counter + k + 1)
  {
  }

  /** With a known year, enriching a speech never raises. */
  lemma KnownYearEnriches(tables: Tables.Reference, session: string, filename: string, t: string, ss: seq<SpeechStart>, k: nat, n: nat)
    requires ValidStarts(|t|, ss) && k < |ss| && Tables.GetYear(tables, session).Some?
    ensures Enrich(tables, session, filename, t, ss, k, n).Ok?
  {
  }

  /** With a known year, no speech raises. */
  lemma KnownYearNeverRaises(tables: Tables.Reference, session: string, filename: string, t: string, ss: seq<SpeechStart>, counter: nat, k: nat)
    requires ValidStarts(|t|, ss) && k < |ss| && Tables.GetYear(tables, session).Some?
    ensures Outcomes(tables, session, filename, t, ss, counter)[k].Ok?
  {
    OutcomeAt(tables, session, filename, t, ss, counter, k);
    KnownYearEnriches(tables, session, filename, t, ss, k, counter + k + 1);
  }

  /** The rows of all speeches of the file, as the speech loop builds them. */
  function BuildRecords(tables: Tables.Reference, session: string, filename: string, t: string, ss: seq<SpeechStart>, counter: nat): Built
    requires ValidStarts(|t|, ss)
  {
    Collect(Outcomes(tables, session, filename, t, ss, counter), |ss|)
  }

  /** The rows of a file carry the IDs that follow the counter. */
  lemma BuildRecordsNumbered(tables: Tables.Reference, session: string, filename: string, t: string, ss: seq<SpeechStart>, counter: nat, k: nat)
    requires ValidStarts(|t|, ss) && k < |BuildRecords(tables, session, filename, t, ss, counter).records|
    ensures BuildRecords(tables, session, filename, t, ss, counter).records[k].speechId == Format.SpeechId(counter + k + 1)
  {
    CollectRows(Outcomes(tables, session, filename, t, ss, counter), |ss|);
    OutcomeAt(tables, session, filename, t, ss, counter, k);
  }

  /** Every row of a file carries the ID that follows the counter by its position. */
  lemma BuildRecordsAllNumbered(tables: Tables.Reference, session: string, filename: string, t: string, ss: seq<SpeechStart>, counter: nat)
    requires ValidStarts(|t|, ss)
    ensures var rs := BuildRecords(tables, session, filename, t, ss, counter).records;
      forall j :: 0 <= j < |rs| ==> rs[j].speechId == Format.SpeechId(counter + j + 1)
  {
    var rs := BuildRecords(tables, session, filename, t, ss, counter).records;
    forall j | 0 <= j < |rs| ensures rs[j].speechId == Format.SpeechId(counter + j + 1) {
      BuildRecordsNumbered(tables, session, filename, t, ss, counter, j);
    }
  }

  // ---------------------------------------------------------------------------
  // Flagged lines and head-of-state entries
  // ---------------------------------------------------------------------------

  /** One entry of `flagged_lines`. */
  datatype FlaggedLine = FlaggedLine(file: string, line: string, reason: string)

  /** One entry of `head_of_state_speeches`. */
  datatype HeadOfStateEntry = HeadOfStateEntry(file: string, speaker: string, country: string)

  /** One entry of `skipped_files`. */
  datatype SkipRecord = SkipRecord(session: string, file: string, reason: string)

  /** The loose matches in `loose` that do not start where a strict match does, in order. */
  function Unmatched(loose: seq<Match>, starts: set<nat>): (ms: seq<Match>)
    ensures |ms| <= |loose|
    decreases |loose|
  {
    if loose == [] then []
    else
      var rest := Unmatched(loose[..|loose| - 1], starts);
      var last := loose[|loose| - 1];
      if last.start in starts then rest else rest + [last]
  }

  /** One more loose match is kept exactly when no strict match starts where it does. */
  lemma UnmatchedNext(loose: seq<Match>, i: nat, starts: set<nat>)
    requires i < |loose|
    ensures Unmatched(loose[..i + 1], starts)
      == if loose[i].start in starts then Unmatched(loose[..i], starts) else Unmatched(loose[..i], starts) + [loose[i]]
  {
    assert loose[..i + 1][..i] == loose[..i];
  }

  /** A loose match is flagged exactly when no strict match starts where it does. */
  lemma {:induction false} UnmatchedListed(loose: seq<Match>, starts: set<nat>)
    ensures forall m :: m in Unmatched(loose, starts) <==> m in loose && m.start !in starts
    decreases |loose|
  {
    if loose != [] {
      UnmatchedListed(loose[..|loose| - 1], starts);
      assert loose == loose[..|loose| - 1] + [loose[|loose| - 1]];
    }
  }

  /** `line[:100]`, `line` being the stripped text of a loose match. */
  function Excerpt(m: Match): (line: string)
    ensures |line| <= ExcerptLength
    ensures line <= Strip(m.text)
    ensures |line| == Min(|Strip(m.text)|, ExcerptLength)
  {
    var s := Strip(m.text);
    if |s| <= ExcerptLength then s else s[..ExcerptLength]
  }

  /** The `flagged_lines` entries for the matches `ms` of file `filename`. */
  function FlaggedEntries(ms: seq<Match>, filename: string): (fl: seq<FlaggedLine>)
    ensures |fl| == |ms|
  {
    seq(|ms|, k requires 0 <= k < |ms| => FlaggedLine(filename, Excerpt(ms[k]), StrictFailureReason))
  }

  /** Each entry names the file and holds at most `ExcerptLength` characters. */
  lemma FlaggedEntriesShape(ms: seq<Match>, filename: string)
    ensures var fl := FlaggedEntries(ms, filename);
      forall k :: 0 <= k < |fl| ==> fl[k].file == filename && |fl[k].line| <= ExcerptLength
  {
  }

  /** One more match adds its own entry at the end. */
  lemma FlaggedEntriesAppend(ms: seq<Match>, m: Match, filename: string)
    ensures FlaggedEntries(ms + [m], filename)
      == FlaggedEntries(ms, filename) + [FlaggedLine(filename, Excerpt(m), StrictFailureReason)]
  {
  }

  /** The head-of-state entries for the speech starts `ss` of file `filename`. */
  function HeadOfStateEntries(ss: seq<SpeechStart>, filename: string): (es: seq<HeadOfStateEntry>)
    ensures |es| <= |ss|
    decreases |ss|
  {
    if ss == [] then []
    else
      var rest := HeadOfStateEntries(ss[..|ss| - 1], filename);
      var last := ss[|ss| - 1];
      if IsHeadOfState(last.speaker) then rest + [HeadOfStateEntry(filename, last.speaker, last.country)] else rest
  }

  /**
   * An entry is listed exactly when some speech of the file has a
   * head-of-state speaker, with that speaker and country.
   */
  lemma {:induction false} HeadOfStateEntriesListed(ss: seq<SpeechStart>, filename: string, e: HeadOfStateEntry)
    ensures e in HeadOfStateEntries(ss, filename) <==>
      e.file == filename && exists k :: 0 <= k < |ss| && ss[k].speaker == e.speaker && ss[k].country == e.country && IsHeadOfState(ss[k].speaker)
    decreases |ss|
  {
    if ss != [] {
      var rest := ss[..|ss| - 1];
      var last := ss[|ss| - 1];
      HeadOfStateEntriesListed(rest, filename, e);
      if e.file == filename && e.speaker == last.speaker && e.country == last.country && IsHeadOfState(last.speaker) {
        assert e == HeadOfStateEntry(filename, last.speaker, last.country);
      }
      if exists k :: 0 <= k < |rest| && rest[k].speaker == e.speaker && rest[k].country == e.country && IsHeadOfState(rest[k].speaker) {
        var k :| 0 <= k < |rest| && rest[k].speaker == e.speaker && rest[k].country == e.country && IsHeadOfState(rest[k].speaker);
        assert ss[k] == rest[k];
      }
      if exists k :: 0 <= k < |ss| && ss[k].speaker == e.speaker && ss[k].country == e.country && IsHeadOfState(ss[k].speaker) {
        var k :| 0 <= k < |ss| && ss[k].speaker == e.speaker && ss[k].country == e.country && IsHeadOfState(ss[k].speaker);
        if k < |rest| {
          assert rest[k] == ss[k];
        }
      }
    }
  }

  /** `sum(1 for f in flagged_lines if f['file'] == filename)`. */
  function CountFlagged(fl: seq<FlaggedLine>, filename: string): (c: nat)
    ensures c <= |fl|
    decreases |fl|
  {
    if fl == [] then 0
    else CountFlagged(fl[..|fl| - 1], filename) + (if fl[|fl| - 1].file == filename then 1 else 0)
  }

  /** Counting over a concatenation adds the counts. */
  lemma {:induction false} CountFlaggedAppend(a: seq<FlaggedLine>, b: seq<FlaggedLine>, filename: string)
    ensures CountFlagged(a + b, filename) == CountFlagged(a, filename) + CountFlagged(b, filename)
    decreases |b|
  {
    if b == [] {
      assert a + b == a;
    } else {
      var b' := b[..|b| - 1];
      var ab := a + b;
      assert ab[..|ab| - 1] == a + b';
      assert ab[|ab| - 1] == b[|b| - 1];
      CountFlaggedAppend(a, b', filename);
    }
  }

  /** Entries that all name the file are all counted; entries that name none are not. */
  lemma {:induction false} CountFlaggedAll(fl: seq<FlaggedLine>, filename: string)
    ensures (forall k :: 0 <= k < |fl| ==> fl[k].file == filename) ==> CountFlagged(fl, filename) == |fl|
    ensures (forall k :: 0 <= k < |fl| ==> fl[k].file != filename) ==> CountFlagged(fl, filename) == 0
    decreases |fl|
  {
    if fl != [] {
      CountFlaggedAll(fl[..|fl| - 1], filename);
    }
  }

  // ---------------------------------------------------------------------------
  // Meeting rollup
  // ---------------------------------------------------------------------------

  /** One row of `all_meetings`; the country and language columns are kept as sets. */
  datatype MeetingRecord = MeetingRecord(
    meetingId: string,
    session: string,
    meetingFile: string,
    speechCount: nat,
    countryCount: nat,
    countries: set<string>,
    languages: set<string>,
    totalWordCount: nat,
    headOfStateCount: nat,
    flaggedCount: nat)

  /** `meeting_countries`: the distinct countries of the rows. */
  function Countries(rs: seq<SpeechRecord>): (cs: set<string>)
    ensures |cs| <= |rs|
    decreases |rs|
  {
    if rs == [] then {} else Countries(rs[..|rs| - 1]) + {rs[|rs| - 1].country}
  }

  /** The meeting's countries are exactly the countries of its rows. */
  lemma {:induction false} CountriesListed(rs: seq<SpeechRecord>)
    ensures Countries(rs) == set r | r in rs :: r.country
    decreases |rs|
  {
    if rs != [] {
      var rest := rs[..|rs| - 1];
      CountriesListed(rest);
      assert rs == rest + [rs[|rs| - 1]];
    }
  }

  /** `meeting_languages`: the distinct languages of the rows. */
  function Languages(rs: seq<SpeechRecord>): (ls: set<string>)
    ensures |ls| <= |rs|
    decreases |rs|
  {
    if rs == [] then {} else Languages(rs[..|rs| - 1]) + {rs[|rs| - 1].language}
  }

  /** The meeting's languages are exactly the languages of its rows. */
  lemma {:induction false} LanguagesListed(rs: seq<SpeechRecord>)
    ensures Languages(rs) == set r | r in rs :: r.language
    decreases |rs|
  {
    if rs != [] {
      var rest := rs[..|rs| - 1];
      LanguagesListed(rest);
      assert rs == rest + [rs[|rs| - 1]];
    }
  }

  /** `meeting_word_count`: the words of all rows. */
  function TotalWords(rs: seq<SpeechRecord>): nat
    decreases |rs|
  {
    if rs == [] then 0 else TotalWords(rs[..|rs| - 1]) + rs[|rs| - 1].wordCount
  }

  /** `meeting_head_of_state_count`: the rows whose speaker is a head of state. */
  function HeadCount(rs: seq<SpeechRecord>): (c: nat)
    ensures c <= |rs|
    decreases |rs|
  {
    if rs == [] then 0 else HeadCount(rs[..|rs| - 1]) + (if rs[|rs| - 1].isHeadOfState then 1 else 0)
  }

  /** No speech of the meeting has more words than the meeting. */
  lemma {:induction false} TotalWordsBound(rs: seq<SpeechRecord>, k: nat)
    requires k < |rs|
    ensures rs[k].wordCount <= TotalWords(rs)
    decreases |rs|
  {
    if k < |rs| - 1 {
      TotalWordsBound(rs[..|rs| - 1], k);
    }
  }

  /** The `all_meetings` row for the rows `rs` of the file. */
  function Rollup(session: string, filename: string, rs: seq<SpeechRecord>, flagged: nat): (m: MeetingRecord)
    ensures m.countryCount <= m.speechCount && m.headOfStateCount <= m.speechCount
    ensures m.speechCount == 0 ==> m.countries == {} && m.languages == {} && m.totalWordCount == 0
  {
    MeetingRecord(Stem(filename), session, filename, |rs|, |Countries(rs)|, Countries(rs), Languages(rs),
                  TotalWords(rs), HeadCount(rs), flagged)
  }

  // ---------------------------------------------------------------------------
  // The run
  // ---------------------------------------------------------------------------

  /**
   * The accumulators of `split_texts`. `aborted` records that a speech raised
   * `TypeError`, which ends the run.
   */
  datatype Run = Run(
    flaggedLines: seq<FlaggedLine>,
    headOfStateSpeeches: seq<HeadOfStateEntry>,
    skippedFiles: seq<SkipRecord>,
    allSpeeches: seq<SpeechRecord>,
    allMeetings: seq<MeetingRecord>,
    speechCounter: nat,
    aborted: bool)

  /** Every list of `run` is a prefix of the same list of `next`, and the counter has not gone back. */
  predicate Extends(run: Run, next: Run) {
    && run.flaggedLines <= next.flaggedLines
    && run.headOfStateSpeeches <= next.headOfStateSpeeches
    && run.skippedFiles <= next.skippedFiles
    && run.allSpeeches <= next.allSpeeches
    && run.allMeetings <= next.allMeetings
    && run.speechCounter <= next.speechCounter
  }

  /** `Extends` is transitive. */
  lemma ExtendsTransitive(a: Run, b: Run, c: Run)
    requires Extends(a, b) && Extends(b, c)
    ensures Extends(a, c)
  {
  }

  /** The accumulators before the first file. */
  const Initial: Run := Run([], [], [], [], [], 0, false)

  /** The text after the general-debate heading, if the file has one. */
  function Section(content: string): (section: Option<string>)
    ensures section.Some? ==> |section.value| < |content|
  {
    match SearchGeneralDebate(content, 0)
    case None => None
    case Some(gd) => Some(content[gd.end..])
  }

  /**
   * The section is the text after the leftmost heading match, and there is
   * none exactly when no offset starts a heading.
   */
  lemma SectionAfterHeading(content: string)
    ensures Section(content).None? <==> forall p :: 0 <= p < |content| ==> GeneralDebateAt(content, p).None?
    ensures Section(content).Some? ==>
      exists p :: 0 <= p < |content| && GeneralDebateAt(content, p).Some?
        && (forall q :: 0 <= q < p ==> GeneralDebateAt(content, q).None?)
        && Section(content).value == content[GeneralDebateAt(content, p).value..]
  {
    match SearchGeneralDebate(content, 0)
    case None =>
    case Some(gd) =>
      assert GeneralDebateAt(content, gd.start).Some?;
  }

  /**
   * The accumulators after the file `filename` of session directory
   * `session` with text `content`.
   */
  function Step(tables: Tables.Reference, run: Run, session: string, filename: string, content: string): Run {
    match Section(content)
    case None =>
      run.(skippedFiles := run.skippedFiles + [SkipRecord(session, filename, NoDebateReason)])
    case Some(section) =>
      SectionStep(tables, run, session, filename, section)
  }

  /** The accumulators after a file whose general-debate section is `section`. */
  function SectionStep(tables: Tables.Reference, run: Run, session: string, filename: string, section: string): Run {
      var strict := StrictMatches(section);
      var ss := SpeechStarts(strict);
      StrictStartsValid(section);
      var loose := PotentialMatches(section);
      var flagged := run.flaggedLines + FlaggedEntries(Unmatched(loose, MatchStarts(strict)), filename);
      var built := BuildRecords(tables, session, filename, section, ss, run.speechCounter);
      var run1 := run.(
        flaggedLines := flagged,
        headOfStateSpeeches := run.headOfStateSpeeches + HeadOfStateEntries(ss, filename),
        allSpeeches := run.allSpeeches + built.records,
        speechCounter := run.speechCounter + |built.records| + (if built.raised then 1 else 0),
        aborted := built.raised);
      if built.raised then run1
      else run1.(allMeetings := run.allMeetings + [Rollup(session, filename, built.records, CountFlagged(flagged, filename))])
  }

  /**
   * A file only appends to the accumulators. A file without the heading adds
   * one skip record and no rows; a file with it adds no skip record and,
   * unless a speech raised, one meeting row.
   */
  lemma StepAppends(tables: Tables.Reference, run: Run, session: string, filename: string, content: string)
    ensures var next := Step(tables, run, session, filename, content);
      && Extends(run, next)
      && (Section(content).None? ==>
            && next.skippedFiles == run.skippedFiles + [SkipRecord(session, filename, NoDebateReason)]
            && next.allSpeeches == run.allSpeeches && next.allMeetings == run.allMeetings && next.aborted == run.aborted)
      && (Section(content).Some? ==>
            next.skippedFiles == run.skippedFiles && (next.aborted || |next.allMeetings| == |run.allMeetings| + 1))
  {
    if Section(content).Some? {
      SectionStepAppends(tables, run, session, filename, Section(content).value);
    }
  }

  /**
   * A file with a general-debate section only appends, adds no skip record,
   * and adds one meeting row for the file, whose speech count is the number
   * of rows it added, exactly when no speech raised.
   */
  lemma SectionStepAppends(tables: Tables.Reference, run: Run, session: string, filename: string, section: string)
    ensures var next := SectionStep(tables, run, session, filename, section);
      && Extends(run, next) && next.skippedFiles == run.skippedFiles
      && (next.aborted ==> next.allMeetings == run.allMeetings)
      && (!next.aborted ==>
            && |next.allMeetings| == |run.allMeetings| + 1
            && next.allMeetings[|run.allMeetings|].meetingFile == filename
            && next.allMeetings[|run.allMeetings|].speechCount == |next.allSpeeches| - |run.allSpeeches|)
  {
  }

  /** A state whose fields are those of `SectionStep` is `SectionStep`. */
  lemma SectionStepIs(tables: Tables.Reference, run: Run, session: string, filename: string, section: string, next: Run)
    requires ValidStarts(|section|, SpeechStarts(StrictMatches(section)))
    requires var strict := StrictMatches(section);
        var ss := SpeechStarts(strict);
        var b := BuildRecords(tables, session, filename, section, ss, run.speechCounter);
        && next.flaggedLines == run.flaggedLines + FlaggedEntries(Unmatched(PotentialMatches(section), MatchStarts(strict)), filename)
        && next.headOfStateSpeeches == run.headOfStateSpeeches + HeadOfStateEntries(ss, filename)
        && next.skippedFiles == run.skippedFiles
        && next.allSpeeches == run.allSpeeches + b.records
        && next.speechCounter == run.speechCounter + |b.records| + (if b.raised then 1 else 0)
        && next.aborted == b.raised
        && next.allMeetings == if b.raised then run.allMeetings
                          else run.allMeetings + [Rollup(session, filename, b.records, CountFlagged(next.flaggedLines, filename))]
    ensures next == SectionStep(tables, run, session, filename, section)
  {
  }

  /**
   * The speech IDs are `speech_00001`, `speech_00002`, ... in order, and the
   * counter is one past the last row when a speech raised.
   */
  ghost predicate Numbered(run: Run) {
    && (forall k :: 0 <= k < |run.allSpeeches| ==> run.allSpeeches[k].speechId == Format.SpeechId(k + 1))
    && run.speechCounter == |run.allSpeeches| + (if run.aborted then 1 else 0)
  }

  /** Rows numbered on from `|prev|` extend rows numbered from 1. */
  lemma AppendNumbered(prev: seq<SpeechRecord>, rs: seq<SpeechRecord>, n: nat)
    requires n == |prev|
    requires forall k :: 0 <= k < |prev| ==> prev[k].speechId == Format.SpeechId(k + 1)
    requires forall j :: 0 <= j < |rs| ==> rs[j].speechId == Format.SpeechId(n + j + 1)
    ensures forall k :: 0 <= k < |prev + rs| ==> (prev + rs)[k].speechId == Format.SpeechId(k + 1)
  {
    forall k | |prev| <= k < |prev + rs| ensures (prev + rs)[k].speechId == Format.SpeechId(k + 1) {
      assert (prev + rs)[k] == rs[k - |prev|];
    }
  }

  /** Every file keeps the numbering. */
  lemma StepKeepsNumbering(tables: Tables.Reference, run: Run, session: string, filename: string, content: string)
    requires Numbered(run) && !run.aborted
    ensures Numbered(Step(tables, run, session, filename, content))
  {
    if Section(content).Some? {
      SectionStepKeepsNumbering(tables, run, session, filename, Section(content).value);
    }
  }

  /** A file with a general-debate section keeps the numbering. */
  lemma SectionStepKeepsNumbering(tables: Tables.Reference, run: Run, session: string, filename: string, section: string)
    requires Numbered(run) && !run.aborted
    ensures Numbered(SectionStep(tables, run, session, filename, section))
  {
    SectionStepRows(tables, run, session, filename, section);
    NumberedAfterSection(tables, run, session, filename, section, SectionStep(tables, run, session, filename, section));
  }

  /** The rows, the counter and the abort flag after a file with a general-debate section. */
  lemma SectionStepRows(tables: Tables.Reference, run: Run, session: string, filename: string, section: string)
    ensures ValidStarts(|section|, SpeechStarts(StrictMatches(section)))
    ensures var next := SectionStep(tables, run, session, filename, section);
      var built := BuildRecords(tables, session, filename, section, SpeechStarts(StrictMatches(section)), run.speechCounter);
      && next.allSpeeches == run.allSpeeches + built.records
      && next.speechCounter == run.speechCounter + |built.records| + (if built.raised then 1 else 0)
      && next.aborted == built.raised
  {
    StrictStartsValid(section);
  }

  /** Appending the rows of a file, numbered on from the counter, keeps the numbering. */
  lemma NumberedAfterSection(tables: Tables.Reference, run: Run, session: string, filename: string, section: string, next: Run)
    requires Numbered(run) && !run.aborted
    requires ValidStarts(|section|, SpeechStarts(StrictMatches(section)))
    requires var built := BuildRecords(tables, session, filename, section, SpeechStarts(StrictMatches(section)), run.speechCounter);
      && next.allSpeeches == run.allSpeeches + built.records
      && next.speechCounter == run.speechCounter + |built.records| + (if built.raised then 1 else 0)
      && next.aborted == built.raised
    ensures Numbered(next)
  {
    var ss := SpeechStarts(StrictMatches(section));
    var built := BuildRecords(tables, session, filename, section, ss, run.speechCounter);
    BuildRecordsAllNumbered(tables, session, filename, section, ss, run.speechCounter);
    NumberedAfterRows(run, next, built.records, built.raised);
  }

  /** Appending rows numbered on from the counter keeps the numbering. */
  lemma NumberedAfterRows(run: Run, next: Run, rs: seq<SpeechRecord>, raised: bool)
    requires Numbered(run) && !run.aborted
    requires forall j :: 0 <= j < |rs| ==> rs[j].speechId == Format.SpeechId(run.speechCounter + j + 1)
    requires next.allSpeeches == run.allSpeeches + rs
    requires next.speechCounter == run.speechCounter + |rs| + (if raised then 1 else 0)
    requires next.aborted == raised
    ensures Numbered(next)
  {
    AppendNumbered(run.allSpeeches, rs, run.speechCounter);
  }

  /** Numbered rows have pairwise distinct speech IDs. */
  lemma NumberedIdsDistinct(run: Run, j: nat, k: nat)
    requires Numbered(run) && j < k < |run.allSpeeches|
    ensures run.allSpeeches[j].speechId != run.allSpeeches[k].speechId
  {
    Format.SpeechIdInjective(j + 1, k + 1);
  }

  /** A file without a general-debate heading adds only a skip record. */
  lemma NoDebateOnlySkips(tables: Tables.Reference, run: Run, session: string, filename: string, content: string)
    requires forall p :: 0 <= p < |content| ==> GeneralDebateAt(content, p).None?
    ensures Step(tables, run, session, filename, content)
      == run.(skippedFiles := run.skippedFiles + [SkipRecord(session, filename, NoDebateReason)])
  {
  }

  /**
   * A file of a session with a known year gets one row per strict match and
   * a meeting row whose counts agree with those rows.
   */
  lemma MeetingRowAgrees(tables: Tables.Reference, run: Run, session: string, filename: string, content: string)
    requires !run.aborted && Tables.GetYear(tables, session).Some? && Section(content).Some?
    ensures var next := Step(tables, run, session, filename, content);
      var section := Section(content).value;
      && !next.aborted
      && |next.allSpeeches| == |run.allSpeeches| + |StrictMatches(section)|
      && |next.allMeetings| == |run.allMeetings| + 1
      && next.allMeetings[|run.allMeetings|].speechCount == |StrictMatches(section)|
      && next.allMeetings[|run.allMeetings|].totalWordCount == TotalWords(next.allSpeeches[|run.allSpeeches|..])
  {
    var section := Section(content).value;
    var ss := SpeechStarts(StrictMatches(section));
    StrictStartsValid(section);
    forall k | 0 <= k < |ss| ensures Outcomes(tables, session, filename, section, ss, run.speechCounter)[k].Ok? {
      KnownYearNeverRaises(tables, session, filename, section, ss, run.speechCounter, k);
    }
    CollectAll(Outcomes(tables, session, filename, section, ss, run.speechCounter), |ss|);
    var built := BuildRecords(tables, session, filename, section, ss, run.speechCounter);
    var next := Step(tables, run, session, filename, content);
    assert next.allSpeeches[|run.allSpeeches|..] == built.records;
  }

  /**
   * The meeting's flagged count, taken over all flagged lines so far, is the
   * number of its own flagged lines when no earlier file had the same name.
   */
  lemma FlaggedCountIsOwn(tables: Tables.Reference, run: Run, session: string, filename: string, content: string)
    requires !run.aborted && Section(content).Some?
    requires forall k :: 0 <= k < |run.flaggedLines| ==> run.flaggedLines[k].file != filename
    ensures var next := Step(tables, run, session, filename, content);
      var section := Section(content).value;
      var strict := StrictMatches(section);
      !next.aborted ==>
        next.allMeetings[|run.allMeetings|].flaggedCount == |Unmatched(PotentialMatches(section), MatchStarts(strict))|
  {
    var section := Section(content).value;
    var strict := StrictMatches(section);
    var own := FlaggedEntries(Unmatched(PotentialMatches(section), MatchStarts(strict)), filename);
    CountFlaggedAppend(run.flaggedLines, own, filename);
    CountFlaggedAll(run.flaggedLines, filename);
    FlaggedEntriesShape(Unmatched(PotentialMatches(section), MatchStarts(strict)), filename);
    CountFlaggedAll(own, filename);
    var next := Step(tables, run, session, filename, content);
    assert !next.aborted ==> next.allMeetings[|run.allMeetings|].flaggedCount == CountFlagged(run.flaggedLines + own, filename);
  }

  // ---------------------------------------------------------------------------
  // All files
  // ---------------------------------------------------------------------------

  /** One transcript: its session directory, file name and text. */
  datatype SourceFile = SourceFile(session: string, name: string, content: string)

  /** `filename.lower().endswith(".txt")`. */
  predicate IsTxt(name: string) {
    |name| >= 4 && forall k :: 0 <= k < 4 ==> Lower(name[|name| - 4 + k]) == ".txt"[k]
  }

  /** Any name ending in `.txt` or `.TXT` is a transcript. */
  lemma TxtNames(base: string)
    ensures IsTxt(base + ".txt") && IsTxt(base + ".TXT")
  {
    var l, u := base + ".txt", base + ".TXT";
    assert l[|l| - 4..] == ".txt" && u[|u| - 4..] == ".TXT";
  }

  /** A transcript's name has a `.` four characters from its end, so `notes.md` or a bare `txt` is no transcript. */
  lemma TxtHasDot(name: string)
    requires IsTxt(name)
    ensures name[|name| - 4] == '.'
  {
    assert Lower(name[|name| - 4]) == ".txt"[0];
  }

  /**
   * The accumulators after the files `files`, in order: files that are not
   * `.txt` files are passed over, and nothing happens after a speech raised.
   */
  function RunFiles(tables: Tables.Reference, files: seq<SourceFile>): Run
    decreases |files|
  {
    if files == [] then Initial
    else
      var run := RunFiles(tables, files[..|files| - 1]);
      var f := files[|files| - 1];
      if run.aborted || !IsTxt(f.name) then run else Step(tables, run, f.session, f.name, f.content)
  }

  /** Over any files, the speech IDs are numbered from 1 and distinct. */
  lemma {:induction false} RunFilesNumbered(tables: Tables.Reference, files: seq<SourceFile>)
    ensures Numbered(RunFiles(tables, files))
    decreases |files|
  {
    if files != [] {
      RunFilesNumbered(tables, files[..|files| - 1]);
      var run := RunFiles(tables, files[..|files| - 1]);
      var f := files[|files| - 1];
      if !run.aborted && IsTxt(f.name) {
        StepKeepsNumbering(tables, run, f.session, f.name, f.content);
      }
    }
  }

  /** Each file adds at most one skip record or one meeting row, and every skip record is for a missing general-debate heading. */
  lemma {:induction false} RunFilesCounts(tables: Tables.Reference, files: seq<SourceFile>)
    ensures var run := RunFiles(tables, files);
      && |run.skippedFiles| + |run.allMeetings| <= |files|
      && forall k :: 0 <= k < |run.skippedFiles| ==> run.skippedFiles[k].reason == NoDebateReason
    decreases |files|
  {
    if files != [] {
      RunFilesCounts(tables, files[..|files| - 1]);
      var f := files[|files| - 1];
      StepAppends(tables, RunFiles(tables, files[..|files| - 1]), f.session, f.name, f.content);
    }
  }

  /** The accumulators only grow: those after a prefix of the files are extended by those after all of them. */
  lemma {:induction false} RunFilesExtends(tables: Tables.Reference, files: seq<SourceFile>, j: nat)
    requires j <= |files|
    ensures Extends(RunFiles(tables, files[..j]), RunFiles(tables, files))
    decreases |files|
  {
    if j < |files| {
      var init := files[..|files| - 1];
      assert init[..j] == files[..j];
      RunFilesExtends(tables, init, j);
      var f := files[|files| - 1];
      StepAppends(tables, RunFiles(tables, init), f.session, f.name, f.content);
      ExtendsTransitive(RunFiles(tables, files[..j]), RunFiles(tables, init), RunFiles(tables, files));
    } else {
      assert files[..j] == files;
    }
  }
}
