/**
 * `split_texts` as the source runs it: the accumulators are the fields of an
 * `Extractor`, and each transcript is processed by the source's three loops
 * (strict matches, loose matches, speeches) and the meeting rollup. Every
 * method is proved to leave the accumulators exactly as the functions of
 * `Segment` describe.
 */
module Splitter {
  import opened Wrappers
  import opened Text
  import Format
  import Tables
  import Sanitize
  import opened Patterns
  import opened Segment

  /** The accumulators of `split_texts`, updated file by file. */
  class Extractor {
    var flaggedLines: seq<FlaggedLine>
    var headOfStateSpeeches: seq<HeadOfStateEntry>
    var skippedFiles: seq<SkipRecord>
    var allSpeeches: seq<SpeechRecord>
    var allMeetings: seq<MeetingRecord>
    var speechCounter: nat
    var aborted: bool

    /** The accumulators as a value. */
    function State(): Run
      reads this
    {
      Run(flaggedLines, headOfStateSpeeches, skippedFiles, allSpeeches, allMeetings, speechCounter, aborted)
    }

    /** The empty lists and the counter at zero. */
    constructor ()
      ensures State() == Initial
    {
      flaggedLines := [];
      headOfStateSpeeches := [];
      skippedFiles := [];
      allSpeeches := [];
      allMeetings := [];
      speechCounter := 0;
      aborted := false;
    }

    /**
     * The loop over `SPEECH_PATTERN.finditer(section)`: the `speeches` list,
     * `strict_match_positions`, and the head-of-state entries it appends.
     */
    method CollectStarts(ms: seq<Match>, filename: string) returns (speeches: seq<SpeechStart>, positions: set<nat>)
      modifies this`headOfStateSpeeches
      ensures speeches == SpeechStarts(ms)
      ensures positions == MatchStarts(ms)
      ensures headOfStateSpeeches == old(headOfStateSpeeches) + HeadOfStateEntries(speeches, filename)
    {
      speeches := [];
      positions := {};
      var i := 0;
      while i < |ms|
        invariant 0 <= i <= |ms|
        invariant speeches == SpeechStarts(ms[..i])
        invariant positions == MatchStarts(ms[..i])
        invariant headOfStateSpeeches == old(headOfStateSpeeches) + HeadOfStateEntries(speeches, filename)
      {
        var entry := StartOf(ms[i]);
        StartsNext(ms, i, filename);
        if IsHeadOfState(entry.speaker) {
          var added := HeadOfStateEntry(filename, entry.speaker, entry.country);
          AppendAssoc(old(headOfStateSpeeches), HeadOfStateEntries(speeches, filename), [added]);
          headOfStateSpeeches := headOfStateSpeeches + [added];
        } else {
          AppendNothing(HeadOfStateEntries(speeches, filename));
        }
        speeches := speeches + [entry];
        positions := positions + {ms[i].start};
        i := i + 1;
      }
      assert ms[..i] == ms;
    }

    /**
     * The loop over `POTENTIAL_SPEECH_PATTERN.finditer(section)`: flags each
     * loose match that does not start where a strict match does.
     */
    method FlagPotentialSpeeches(loose: seq<Match>, positions: set<nat>, filename: string)
      modifies this`flaggedLines
      ensures flaggedLines == old(flaggedLines) + FlaggedEntries(Unmatched(loose, positions), filename)
    {
      var i := 0;
      while i < |loose|
        invariant 0 <= i <= |loose|
        invariant flaggedLines == old(flaggedLines) + FlaggedEntries(Unmatched(loose[..i], positions), filename)
      {
        UnmatchedNext(loose, i, positions);
        if loose[i].start !in positions {
          var line := FlaggedLine(filename, Excerpt(loose[i]), StrictFailureReason);
          FlaggedEntriesAppend(Unmatched(loose[..i], positions), loose[i], filename);
          AppendAssoc(old(flaggedLines), FlaggedEntries(Unmatched(loose[..i], positions), filename), [line]);
          flaggedLines := flaggedLines + [line];
        }
        i := i + 1;
      }
      assert loose[..i] == loose;
    }

    /**
     * The loop over `speeches`: numbers each speech, describes it, appends
     * its row, and accumulates the meeting totals; stops at the first
     * speech whose description raises, after its number was taken.
     */
    method ExtractSpeeches(tables: Tables.Reference, session: string, filename: string, section: string, speeches: seq<SpeechStart>,
                           ghost os: seq<Result<SpeechRecord, Tables.PyError>>)
      returns (raised: bool, count: nat, words: nat, countries: set<string>, languages: set<string>, heads: nat)
      requires ValidStarts(|section|, speeches)
      requires OutcomesAre(tables, os, session, filename, section, speeches, speechCounter)
      modifies this`allSpeeches, this`speechCounter
      ensures var b := Collect(os, |speeches|);
        && raised == b.raised
        && allSpeeches == old(allSpeeches) + b.records
        && speechCounter == old(speechCounter) + |b.records| + (if raised then 1 else 0)
        && count == |b.records|
        && words == TotalWords(b.records)
        && countries == Countries(b.records)
        && languages == Languages(b.records)
        && heads == HeadCount(b.records)
    {
      ghost var rs: seq<SpeechRecord> := [];
      raised, count, words, countries, languages, heads := false, 0, 0, {}, {}, 0;
      var first := speechCounter;
      var i := 0;
      while i < |speeches|
        invariant 0 <= i <= |speeches|
        invariant Collect(os, i) == Built(rs, false)
        invariant allSpeeches == old(allSpeeches) + rs
        invariant speechCounter == old(speechCounter) + i
        invariant count == |rs| && words == TotalWords(rs) && countries == Countries(rs)
        invariant languages == Languages(rs) && heads == HeadCount(rs)
      {
        speechCounter := speechCounter + 1;
        var r := DescribeAt(tables, session, filename, section, speeches, i, first, os);
        if r.Err? {
          raised := true;
          CollectNext(os, i, rs);
          assert Collect(os, |speeches|) == Built(rs, true);
          return;
        }
        var record := r.value;
        CollectNext(os, i, rs);
        RollupNext(rs, record);
        AppendAssoc(old(allSpeeches), rs, [record]);
        allSpeeches := allSpeeches + [record];
        count := count + 1;
        words := words + record.wordCount;
        countries := countries + {record.country};
        languages := languages + {record.language};
        if record.isHeadOfState {
          heads := heads + 1;
        }
        rs := rs + [record];
        i := i + 1;
      }
      assert Collect(os, |speeches|) == Built(rs, false);
    }

    /**
     * The body of `split_texts` for one `.txt` file: the general-debate
     * search, the three loops and the meeting row.
     */
    method ProcessFile(tables: Tables.Reference, session: string, filename: string, content: string)
      requires !aborted
      modifies this
      ensures State() == Step(tables, old(State()), session, filename, content)
    {
      var gd := SearchGeneralDebate(content, 0);
      if gd.None? {
        skippedFiles := skippedFiles + [SkipRecord(session, filename, NoDebateReason)];
        return;
      }
      var section := content[gd.value.end..];
      ghost var run := State();
      ProcessSection(tables, session, filename, section, speechCounter);
      SectionStepIs(tables, run, session, filename, section, State());
    }

    /** The body of `split_texts` after the general-debate heading was found. */
    method ProcessSection(tables: Tables.Reference, session: string, filename: string, section: string, ghost counter: nat)
      requires !aborted && speechCounter == counter
      modifies this`headOfStateSpeeches, this`flaggedLines, this`allSpeeches, this`speechCounter, this`aborted, this`allMeetings
      ensures ValidStarts(|section|, SpeechStarts(StrictMatches(section)))
      ensures var strict := StrictMatches(section);
        var ss := SpeechStarts(strict);
        var b := BuildRecords(tables, session, filename, section, ss, counter);
        && flaggedLines == old(flaggedLines) + FlaggedEntries(Unmatched(PotentialMatches(section), MatchStarts(strict)), filename)
        && headOfStateSpeeches == old(headOfStateSpeeches) + HeadOfStateEntries(ss, filename)
        && allSpeeches == old(allSpeeches) + b.records
        && speechCounter == counter + |b.records| + (if b.raised then 1 else 0)
        && aborted == b.raised
        && allMeetings == if b.raised then old(allMeetings)
                          else old(allMeetings) + [Rollup(session, filename, b.records, CountFlagged(flaggedLines, filename))]
    {
      var speeches := ScanSection(section, filename);
      StrictStartsValid(section);
      FinishSection(tables, session, filename, section, speeches, counter);
    }

    /**
     * The strict-match loop and the loose-match loop of one file: the speech
     * starts, and the head-of-state and flagged entries they append.
     */
    method ScanSection(section: string, filename: string) returns (speeches: seq<SpeechStart>)
      modifies this`headOfStateSpeeches, this`flaggedLines
      ensures speeches == SpeechStarts(StrictMatches(section))
      ensures headOfStateSpeeches == old(headOfStateSpeeches) + HeadOfStateEntries(SpeechStarts(StrictMatches(section)), filename)
      ensures flaggedLines == old(flaggedLines) + FlaggedEntries(Unmatched(PotentialMatches(section), MatchStarts(StrictMatches(section))), filename)
    {
      var strict := StrictMatches(section);
      var positions;
      speeches, positions := CollectStarts(strict, filename);
      var loose := PotentialMatches(section);
      FlagPotentialSpeeches(loose, positions, filename);
    }

    /**
     * The speech loop and the meeting row of one file whose speech starts
     * are `speeches`: the meeting row only when no speech raised.
     */
    method FinishSection(tables: Tables.Reference, session: string, filename: string, section: string, speeches: seq<SpeechStart>,
                         ghost counter: nat)
      requires !aborted && speechCounter == counter && ValidStarts(|section|, speeches)
      modifies this`allSpeeches, this`speechCounter, this`aborted, this`allMeetings
      ensures var b := BuildRecords(tables, session, filename, section, speeches, counter);
        && allSpeeches == old(allSpeeches) + b.records
        && speechCounter == counter + |b.records| + (if b.raised then 1 else 0)
        && aborted == b.raised
        && allMeetings == if b.raised then old(allMeetings)
                          else old(allMeetings) + [Rollup(session, filename, b.records, CountFlagged(flaggedLines, filename))]
    {
      ghost var os := Outcomes(tables, session, filename, section, speeches, counter);
      OutcomesListed(tables, session, filename, section, speeches, counter);
      var raised, count, words, countries, languages, heads := ExtractSpeeches(tables, session, filename, section, speeches, os);
      if raised {
        aborted := true;
        return;
      }
      var flagged := CountFlaggedLines(filename);
      allMeetings := allMeetings + [MeetingRecord(Stem(filename), session, filename, count, |countries|,
                                                   countries, languages, words, heads, flagged)];
    }

    /** `sum(1 for f in flagged_lines if f['file'] == filename)`. */
    method CountFlaggedLines(filename: string) returns (c: nat)
      ensures c == CountFlagged(flaggedLines, filename)
    {
      c := 0;
      var i := 0;
      while i < |flaggedLines|
        invariant 0 <= i <= |flaggedLines|
        invariant c == CountFlagged(flaggedLines[..i], filename)
      {
        assert flaggedLines[..i + 1][..i] == flaggedLines[..i];
        if flaggedLines[i].file == filename {
          c := c + 1;
        }
        i := i + 1;
      }
      assert flaggedLines[..i] == flaggedLines;
    }
  }

  /**
   * `os` lists what enriching each speech of the file yields, the counter
   * standing at `counter` before the file.
   */
  ghost predicate OutcomesAre(tables: Tables.Reference, os: seq<Result<SpeechRecord, Tables.PyError>>, session: string, filename: string,
                              t: string, ss: seq<SpeechStart>, counter: nat)
    requires ValidStarts(|t|, ss)
  {
    && |os| == |ss|
    && forall k {:trigger Outcome(tables, session, filename, t, ss, counter, k)} ::
         0 <= k < |ss| ==> os[k] == Outcome(tables, session, filename, t, ss, counter, k)
  }

  lemma OutcomesListed(tables: Tables.Reference, session: string, filename: string, t: string, ss: seq<SpeechStart>, counter: nat)
    requires ValidStarts(|t|, ss)
    ensures OutcomesAre(tables, Outcomes(tables, session, filename, t, ss, counter), session, filename, t, ss, counter)
  {
  }

  /** One more outcome either appends its row or stops the loop for good. */
  lemma CollectNext(os: seq<Result<SpeechRecord, Tables.PyError>>, i: nat, rs: seq<SpeechRecord>)
    requires i < |os| && Collect(os, i) == Built(rs, false)
    ensures os[i].Ok? ==> Collect(os, i + 1) == Built(rs + [os[i].value], false)
    ensures os[i].Err? ==> Collect(os, |os|) == Built(rs, true)
  {
    if os[i].Err? {
      CollectStops(os, i + 1, |os|);
    }
  }

  /** The meeting totals grow by the values of one more row. */
  lemma RollupNext(rs: seq<SpeechRecord>, r: SpeechRecord)
    ensures TotalWords(rs + [r]) == TotalWords(rs) + r.wordCount
    ensures Countries(rs + [r]) == Countries(rs) + {r.country}
    ensures Languages(rs + [r]) == Languages(rs) + {r.language}
    ensures HeadCount(rs + [r]) == HeadCount(rs) + (if r.isHeadOfState then 1 else 0)
  {
    assert (rs + [r])[..|rs|] == rs;
  }

  lemma AppendAssoc<T>(a: seq<T>, b: seq<T>, c: seq<T>)
    ensures a + b + c == a + (b + c)
  {
  }

  lemma AppendNothing<T>(a: seq<T>)
    ensures a + [] == a
  {
  }

  /** One more strict match adds its speech start, its position and, for a head of state, its entry. */
  lemma StartsNext(ms: seq<Match>, i: nat, filename: string)
    requires i < |ms|
    ensures SpeechStarts(ms[..i + 1]) == SpeechStarts(ms[..i]) + [StartOf(ms[i])]
    ensures MatchStarts(ms[..i + 1]) == MatchStarts(ms[..i]) + {ms[i].start}
    ensures HeadOfStateEntries(SpeechStarts(ms[..i]) + [StartOf(ms[i])], filename)
      == HeadOfStateEntries(SpeechStarts(ms[..i]), filename)
         + (if IsHeadOfState(StartOf(ms[i]).speaker)
            then [HeadOfStateEntry(filename, StartOf(ms[i]).speaker, StartOf(ms[i]).country)] else [])
  {
    assert ms[..i + 1][..i] == ms[..i];
    MatchStartsSnoc(ms, i);
    var ss := SpeechStarts(ms[..i]);
    assert (ss + [StartOf(ms[i])])[..|ss|] == ss;
  }

  /** The strict match starts of a prefix grow by one start per match. */
  lemma MatchStartsSnoc(ms: seq<Match>, i: nat)
    requires i < |ms|
    ensures MatchStarts(ms[..i + 1]) == MatchStarts(ms[..i]) + {ms[i].start}
  {
    var a := ms[..i + 1];
    assert a[i] == ms[i];
    forall p | p in MatchStarts(a) ensures p in MatchStarts(ms[..i]) + {ms[i].start} {
      var k :| 0 <= k < |a| && a[k].start == p;
      if k < i {
        assert ms[..i][k] == a[k];
      }
    }
    forall p | p in MatchStarts(ms[..i]) ensures p in MatchStarts(a) {
      var k :| 0 <= k < i && ms[..i][k].start == p;
      assert a[k] == ms[..i][k];
    }
  }

  /**
   * The row of speech `i` numbered `n`: the span end as the minimum of the
   * candidates, the metadata, the sanitised output file name, and the
   * membership columns, which may raise.
   */
  method Describe(tables: Tables.Reference, session: string, filename: string, section: string, speeches: seq<SpeechStart>, i: nat, n: nat)
    returns (r: Result<SpeechRecord, Tables.PyError>)
    requires ValidStarts(|section|, speeches) && i < |speeches|
    ensures r == Enrich(tables, session, filename, section, speeches, i, n)
  {
    var s := speeches[i];
    var start := s.start;
    var president := SearchPresident(section, start);
    var meetingEnd := SearchMeetingEnd(section, start);
    var end := if i + 1 < |speeches| then speeches[i + 1].matchStart else |section|;
    if president.Some? && president.value < end {
      end := president.value;
    }
    if meetingEnd.Some? && meetingEnd.value < end {
      end := meetingEnd.value;
    }
    assert end == SpanEnd(section, speeches, i);
    var text := Strip(section[start..end]);
    var year := Tables.GetYear(tables, session);
    var region := Tables.GetRegion(tables, s.country);
    var paragraphs := ParagraphCount(text);
    var language := LanguageOf(s.language);
    var id := Format.SpeechId(n);
    var baseName := Stem(filename);
    var safeCountry := Sanitize.SanitizeFilename(s.country);
    var outputFile := id + "_" + baseName + "_" + safeCountry + ".txt";
    var orgs := Memberships(tables, s.country, year);
    if orgs.Err? {
      return Err(orgs.error);
    }
    var o := orgs.value;
    r := Ok(SpeechRecord(
      id, baseName, session, year, filename, outputFile,
      s.speaker, s.country, region, language,
      WordCount(text), paragraphs, IsHeadOfState(s.speaker),
      o.focac, o.cascf, o.sco, o.bri, o.briExited, o.celac,
      text));
  }

  /**
   * Describes speech `i` as the `i`-th of the outcomes `os` of the file,
   * numbered `counter + i + 1`: the counter after its increment for this speech.
   */
  method DescribeAt(tables: Tables.Reference, session: string, filename: string, section: string, speeches: seq<SpeechStart>, i: nat,
                    counter: nat, ghost os: seq<Result<SpeechRecord, Tables.PyError>>)
    returns (r: Result<SpeechRecord, Tables.PyError>)
    requires ValidStarts(|section|, speeches) && i < |speeches|
    requires OutcomesAre(tables, os, session, filename, section, speeches, counter)
    ensures r == os[i]
  {
    r := Describe(tables, session, filename, section, speeches, i, counter + i + 1);
    assert os[i] == Outcome(tables, session, filename, section, speeches, counter, i);
  }

  /** One more file: the run after the first `i + 1` files, from the run after the first `i`. */
  lemma RunFilesNext(tables: Tables.Reference, files: seq<SourceFile>, i: nat)
    requires i < |files|
    ensures var run := RunFiles(tables, files[..i]);
      RunFiles(tables, files[..i + 1])
        == if run.aborted || !IsTxt(files[i].name) then run else Step(tables, run, files[i].session, files[i].name, files[i].content)
  {
    assert files[..i + 1][..i] == files[..i];
  }

  /** Over any files, the speech IDs handed out are pairwise distinct. */
  lemma RunFilesIdsDistinct(tables: Tables.Reference, files: seq<SourceFile>)
    ensures var run := RunFiles(tables, files);
      forall j, k :: 0 <= j < k < |run.allSpeeches| ==> run.allSpeeches[j].speechId != run.allSpeeches[k].speechId
  {
    var run := RunFiles(tables, files);
    RunFilesNumbered(tables, files);
    forall j, k | 0 <= j < k < |run.allSpeeches|
      ensures run.allSpeeches[j].speechId != run.allSpeeches[k].speechId
    {
      NumberedIdsDistinct(run, j, k);
    }
  }

  /** Once a speech has raised, later files change nothing. */
  lemma {:induction false} RunFilesStops(tables: Tables.Reference, files: seq<SourceFile>, i: nat)
    requires i <= |files| && RunFiles(tables, files[..i]).aborted
    ensures RunFiles(tables, files) == RunFiles(tables, files[..i])
    decreases |files| - i
  {
    if i < |files| {
      assert files[..i + 1][..i] == files[..i];
      RunFilesStops(tables, files, i + 1);
    } else {
      assert files[..i] == files;
    }
  }

  /**
   * `split_texts` over the transcripts `files` (session directory, name and
   * text, in listing order): processes every `.txt` file and stops when a
   * speech raises. The speech IDs it hands out are distinct.
   */
  method SplitTexts(files: seq<SourceFile>) returns (result: Run)
    ensures result == RunFiles(Tables.Source, files)
    ensures forall j, k :: 0 <= j < k < |result.allSpeeches| ==> result.allSpeeches[j].speechId != result.allSpeeches[k].speechId
  {
    result := SplitTextsWith(Tables.Source, files);
  }

  /** The loop of `split_texts`, over any reference tables. */
  method SplitTextsWith(tables: Tables.Reference, files: seq<SourceFile>) returns (result: Run)
    ensures result == RunFiles(tables, files)
    ensures forall j, k :: 0 <= j < k < |result.allSpeeches| ==> result.allSpeeches[j].speechId != result.allSpeeches[k].speechId
  {
    var x := new Extractor();
    var i := 0;
    while i < |files|
      invariant 0 <= i <= |files|
      invariant x.State() == RunFiles(tables, files[..i])
    {
      if x.aborted {
        RunFilesStops(tables, files, i);
        break;
      }
      var f := files[i];
      RunFilesNext(tables, files, i);
      if IsTxt(f.name) {
        x.ProcessFile(tables, f.session, f.name, f.content);
      }
      i := i + 1;
    }
    if i == |files| {
      assert files[..i] == files;
    }
    result := x.State();
    RunFilesIdsDistinct(tables, files);
  }
}
