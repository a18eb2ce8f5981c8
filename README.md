# UN General Assembly speech splitter, modelled in Dafny

This project models the core of `split-txt.py`: the extractor that cuts the
verbatim records of UN General Assembly plenary meetings into one record per
delegate speech.

For every `.txt` transcript of a session directory (`session_48`, ...), the extractor does the following:

- finds the "general debate" heading and keeps the text after it;
- finds the delegate introduction lines ("Mr. Onkeya (Lao People's Democratic Republic):") with a strict pattern, and look-alike lines with a loose pattern;
- flags every loose match that does not start where a strict match does;
- cuts each speech from the end of its introduction to the earliest of:
  - the next introduction,
  - the next "The President:" or "The Acting President:" line,
  - the next "The meeting rose at" line;
- enriches each speech with its ID (`speech_00001`, ...), year, region, language, word and paragraph counts, head-of-state flag and membership of five China-led organisations at the time of the speech;
- appends one meeting row that rolls the file's speeches up.

The model has one module per concern:

- `Text`: Python's `strip`, `split()` and `split('\n\n')` on `seq<char>`.
- `Format`: the zero-padded speech IDs and session numbers.
- `Tables`: the reference tables and their lookups.
  - A run consults them as a `Tables.Reference` value.
  - `Tables.Source` is the extractor's own set of module-level tables.
- `Sanitize`: `sanitize_filename`. It is a method whose loop removes the unsafe characters one at a time.
- `Patterns`: hand-written matchers for the six regular expressions, and the left-to-right scan `finditer` performs.
- `Segment`: what one file contributes, as functions.
  - It covers speech starts, spans, rows, flagged lines and the meeting row.
  - `Step` gives the run state after a file; `RunFiles` gives the state after a list of files.
- `Splitter`: the imperative extractor.
  - The class `Extractor` holds the accumulators of `split_texts` as fields: `flagged_lines`, `head_of_state_speeches`, `skipped_files`, `all_speeches`, `all_meetings` and `speech_counter`.
  - Its methods run the strict loop, the loose loop, the speech loop and the meeting rollup.
  - Each method is proved to leave exactly the state that `Segment.Step` describes.
  - `SplitTexts` runs the extractor over a list of files. It is proved equal to `RunFiles` and to hand out pairwise distinct speech IDs.

Behaviour of the code that the model reproduces:

- **Unknown session year.**
  - `get_year` returns `None` for a session directory outside `session_48` to `session_79` (split-txt.py:301-303).
  - `is_member_at_time` then evaluates `speech_year < join_year` with `speech_year = None` for every country listed in a membership table (split-txt.py:283-287). That raises `TypeError` and ends the run.
  - The model returns `Err(TypeError)` in that case, and the run state gets an `aborted` flag.
  - Speeches of the file described before the failing one are kept.
  - The counter has already been incremented for the failing speech.
  - No meeting row is written for that file.
- **Flagged count.** `meeting_flagged_count` counts every flagged line collected so far whose `file` equals the meeting's file name (split-txt.py:649), and the model does the same.
  - `Segment.FlaggedCountIsOwn` proves that this is the meeting's own count when no earlier file had the same name.
- **First introduction after the heading.**
  - The general-debate match consumes the newline that ends the heading (split-txt.py:406, 473).
  - An introduction on the very next line therefore has no newline before it in the section, and the strict pattern does not find it.
  - The model reproduces this.

## Model

| member | source | states |
|---|---|---|
| Text.StripShape | split-txt.py:537 | `strip()` yields the input minus a leading and a trailing run of whitespace; the result is empty exactly when the input is all whitespace; otherwise it starts and ends with non-whitespace |
| Text.StripIdempotent | split-txt.py:537 | stripping twice is stripping once |
| Text.StripKeepsHead | split-txt.py:487 | a string that starts with non-whitespace keeps its first character when stripped |
| Text.StripWithin | split-txt.py:487 | stripping adds no character that the input lacks |
| Text.Tokens | split-txt.py:600 | `split()` yields non-empty tokens that contain no whitespace |
| Text.TokensCoverText | split-txt.py:600 | the tokens written one after the other are the input with its whitespace removed, in order |
| Text.WordCountIsWordStarts | split-txt.py:600 | the word count is the number of word starts: non-whitespace characters at the start or after whitespace |
| Text.WordCountZeroIffBlank | split-txt.py:600 | the word count is 0 exactly when the body is all whitespace |
| Text.Paragraphs | split-txt.py:542 | `split('\n\n')` yields at least one piece; no piece contains a blank-line break; no piece but the last ends with a newline, so each break is the leftmost one |
| Text.ParagraphsRoundTrip | split-txt.py:542 | joining the pieces with `"\n\n"` gives back the body |
| Text.CountNonBlank | split-txt.py:542 | the paragraph count is at most the number of pieces, and 0 exactly when every piece is blank |
| Text.CountNonBlankOne | split-txt.py:542 | a single piece counts 1 when it is not blank and 0 when it is |
| Text.CountNonBlankAppend | split-txt.py:542 | the count over `a + b` is the count over `a` plus the count over `b`; with CountNonBlankOne this makes it exactly the number of non-blank pieces |
| Format.Decimal | split-txt.py:20 | the decimal form of a number is non-empty, all digits, and has no leading zero |
| Format.ParseDecimalRoundTrip | split-txt.py:20 | the decimal form parses back to the number |
| Format.DecimalInjective | split-txt.py:20 | different numbers have different decimal forms |
| Format.Pad5 | split-txt.py:547 | `:05d` padding has width max(5, digits) and ends with the digits |
| Format.ParseIgnoresLeadingZeros | split-txt.py:547 | leading zeros do not change the parsed value |
| Format.SpeechId | split-txt.py:547 | a speech ID is `speech_` followed by at least five characters |
| Format.SpeechIdRoundTrip | split-txt.py:547 | after `speech_` the ID is all digits, and they parse back to the counter |
| Format.SpeechIdInjective | split-txt.py:547 | different counters give different speech IDs |
| Tables.SessionKey | split-txt.py:20 | the key of session s is `session_` followed by the decimal s |
| Tables.SessionKeyInjective | split-txt.py:20 | different sessions have different keys |
| Tables.SessionNumber | split-txt.py:20 | every key of the year table is the key of one session between 48 and 79 |
| Tables.SessionYearEntry | split-txt.py:20 | every entry of the year table maps the key of session s (48 to 79) to 1945 + s |
| Tables.SessionYearMapAt | split-txt.py:20 | the key of session s is in the year table iff 48 ≤ s < 80, and then maps to 1945 + s |
| Tables.SessionYearsInRange | split-txt.py:20 | every year in the table lies between 1993 and 2024 |
| Tables.GetYearOfSession | split-txt.py:301-303 | `get_year("session_s")` is 1945 + s for 48 ≤ s ≤ 79 and `None` otherwise |
| Tables.SourceYear | split-txt.py:301-303 | `get_year` gives a year exactly for the keys of sessions 48 to 79, and that year is between 1993 and 2024 |
| Tables.SourceRegion | split-txt.py:296-298 | `get_region` is "Unknown" exactly for countries not in the region table, and otherwise the table's group, one of the six group names |
| Tables.Lookup | split-txt.py:283 | `dict.get` is `Some` exactly for listed keys, and then holds the listed value |
| Tables.GetOrgMembership | split-txt.py:256-269 | each of the seven join years is present exactly when the country is in that organisation's table, and is then the join year that table lists |
| Tables.IsMemberAtTime | split-txt.py:272-293 | with a year: true iff the country is listed with join ≤ year and (no exit table, no exit entry, or year < exit); without a year: raises exactly when the country is listed, and is false otherwise |
| Tables.MembershipMonotone | split-txt.py:286-292 | a member in year y1 is still a member in every later year y2 that is before its exit |
| Tables.MembershipEndsAtExit | split-txt.py:289-292 | from the exit year on, membership at time is false |
| Tables.AtSpeechImpliesJoined | split-txt.py:283-287 | membership at time implies a join year no later than the speech year |
| Tables.BriExitsFollowJoins | split-txt.py:230-233 | every country in the BRI exit table is a BRI member that left after it joined |
| Sanitize.Nfkd | split-txt.py:314 | the normalised name contains no precomposed letter of the decomposition table |
| Sanitize.StripCombining | split-txt.py:315 | dropping combining marks leaves no combining mark and only characters of the input |
| Sanitize.StripCombiningCounts | split-txt.py:315 | each character that is not a combining mark keeps its number of occurrences; combining marks keep none |
| Sanitize.StripCombiningAppend | split-txt.py:315 | the filter works character by character: on a concatenation it is the concatenation of the filtered parts, so order is kept |
| Sanitize.RemoveChar | split-txt.py:318 | `replace(c, '')` leaves no `c`, and every other character with exactly its number of occurrences |
| Sanitize.RemoveCharAppend | split-txt.py:318 | removing `c` from a concatenation is removing it from each part, so the other characters keep their order |
| Sanitize.RemoveAll | split-txt.py:321-322 | removing each listed character leaves none of them and only characters of the input |
| Sanitize.RemoveAllCounts | split-txt.py:321-322 | every unlisted character keeps exactly its number of occurrences; listed ones keep none |
| Sanitize.RemoveAllAppend | split-txt.py:321-322 | removing the listed characters from a concatenation is removing them from each part, so the kept characters stay in order |
| Sanitize.SanitizeFilename | split-txt.py:306-324 | the loop computes `Sanitized(name)`: normalise, drop combining marks, remove spaces, then remove each of the thirteen unsafe characters |
| Sanitize.SanitizedIsSafe | split-txt.py:317-322 | a sanitised name contains no space, no combining mark and none of the thirteen unsafe characters (slash, backslash, colon, asterisk, question mark, double quote, both angle brackets, vertical bar, apostrophe, comma, full stop, semicolon) |
| Sanitize.SanitizedIdempotent | split-txt.py:306-324 | sanitising a sanitised name changes nothing |
| Sanitize.NfkdAppend | split-txt.py:314 | the normalisation works character by character on a concatenation |
| Sanitize.SanitizedAppend | split-txt.py:306-324 | sanitising a concatenation is sanitising each part |
| Sanitize.DecompositionsShape | split-txt.py:309-315 | each decomposed letter is a kept base letter followed by one combining mark |
| Sanitize.SanitizedChar | split-txt.py:309-322 | one character becomes its base letter when it is precomposed, nothing when it is a space, an unsafe character or a combining mark, and itself otherwise |
| Sanitize.SanitizedIsImages | split-txt.py:306-324 | a sanitised name is the characters' images in order: every kept character survives in place, and `é` becomes `e` |
| Patterns.IntroHead | split-txt.py:391-397 | the line starts with a newline; the name runs from the first non-blank to the first `(` or newline, which must be a `(` preceded by a blank; some alternative of `SPEAKER_TITLES` fits before that blank |
| Patterns.TitleSpansFit | split-txt.py:353-394 | a title that ends before the blank in front of the `(` fits the head |
| Patterns.TitleFitSpans | split-txt.py:353-394 | a fitting title spans from the first non-blank to a point before that blank |
| Patterns.IntroTail | split-txt.py:399-400 | the optional language note is non-empty and has no `)`; the match ends just after a `:` |
| Patterns.IntroAt | split-txt.py:391-401 | a match at p starts at p and ends within the text; its country is non-empty and has no `)`; a strict country has the strict shape |
| Patterns.IntroAtComplete | split-txt.py:391-436 | a line laid out as the pattern spells it (newline, blanks, title, name, blanks, `(country)`, optional `(note)`, blanks, colon) matches, with group 1 from the title to the last blank before `(`, the country and the note as captures |
| Patterns.IntroAtSound | split-txt.py:391-436 | every match is such a layout, and its captures are those of the layout |
| Patterns.IntroTailComplete | split-txt.py:399-400 | the optional note and the colon, as laid out, are what the tail finds |
| Patterns.OnkeyaMatches | split-txt.py:335 | "Mr. Onkeya (Lao People's Democratic Republic):" is a strict match with speaker "Mr. Onkeya", that country and no note |
| Patterns.ChairIsNoIntro | split-txt.py:342 | "The President (spoke in French):" matches neither pattern |
| Patterns.NoTitleNoIntro | split-txt.py:353-397 | a line whose first word starts with no title's initial matches neither pattern |
| Patterns.OlhayeIsNoIntro | split-txt.py:345 | "Mr. Olhaye (Djibouti), Vice-President, took the Chair." matches neither pattern |
| Patterns.AsselbornIsLooseOnly | split-txt.py:380-436 | "Mr. Asselborn ( spoke in French ):" fails the strict pattern and matches the loose one, with country " spoke in French " |
| Patterns.CapitalNotExcluded | split-txt.py:383-387 | a country opening with a capital other than U, S and A passes the five exclusions |
| Patterns.CountryShapedFromText | split-txt.py:382-389 | a country slot that passes the five lookaheads and `[A-Z][^)]+` starts with A-Z, has no `)`, and starts with none of "spoke", "interpretation", "Under-Secretary", "Secretary-General" or "Assistant Secretary" |
| Patterns.StrictCountriesShaped | split-txt.py:382-401 | every strict match's country has that shape |
| Patterns.StrictIsLoose | split-txt.py:429-436 | wherever the strict pattern matches, the loose pattern matches with the same captures and end |
| Patterns.FindIter | split-txt.py:485 | `finditer` yields matches within the text, in order and without overlap |
| Patterns.FindIterSound | split-txt.py:485 | each yielded match is the pattern's match at its start |
| Patterns.FindIterMissesNothing | split-txt.py:485 | every offset where the pattern matches is covered by a yielded match |
| Patterns.GeneralDebateAt | split-txt.py:406 | a general-debate match ends just after the newline that closes the heading |
| Patterns.SearchGeneralDebate | split-txt.py:463 | `search` returns the leftmost general-debate match, and `None` only when there is none |
| Patterns.SearchPresident | split-txt.py:416 | `search` returns the first "The (Acting) President:" marker at or after the offset, or `None` when there is none |
| Patterns.SearchMeetingEnd | split-txt.py:421 | `search` returns the first "The meeting rose at" marker at or after the offset, or `None` when there is none |
| Patterns.PresidentIsHeadOfState | split-txt.py:373-376 | "President " followed by any name is flagged as a head of state |
| Patterns.PrimeMinisterIsHeadOfState | split-txt.py:374-376 | "Prime Minister " followed by any name is flagged |
| Patterns.SheikhIsHeadOfState | split-txt.py:375-376 | "Sheikh " followed by any name is flagged |
| Patterns.HeadOfStateInitial | split-txt.py:376 | a flagged speaker starts with p or s, in either case |
| Patterns.MisterNotHeadOfState | split-txt.py:376 | "Mr. " followed by any name is not flagged |
| Segment.SpeechStarts | split-txt.py:485-496 | there is one `speeches` entry per strict match |
| Segment.SpeechStartsAt | split-txt.py:486-496 | entry k holds the stripped captures of match k, its end as the speech start, and its start as the intro start |
| Segment.StoredCountryShaped | split-txt.py:486-493 | the stored, stripped country of every speech is non-empty, starts with A-Z and has no `)` |
| Segment.StrictStartsValid | split-txt.py:485-496 | each intro starts before its speech, and each speech starts no later than the next intro |
| Segment.StartsOrdered | split-txt.py:489-495 | any earlier speech starts no later than any later intro |
| Segment.SpanEnd | split-txt.py:519-535 | a speech's end lies between its start and the next intro's start (the section's length for the last speech) |
| Segment.SpanEndStops | split-txt.py:523-535 | no President or meeting-end marker lies inside the span; the end is the next intro start or such a marker, i.e. the minimum of the candidates |
| Segment.SpansDisjoint | split-txt.py:527-535 | an earlier speech ends no later than a later speech's intro starts, so spans are ordered and disjoint |
| Segment.Status | split-txt.py:575-594 | one organisation's columns: raises iff the year is unknown and the country is listed; "ever member" and the join year iff listed; "at speech" implies joined no later than the year |
| Segment.Memberships | split-txt.py:575-594 | the row's membership columns raise iff the year is unknown and the country is in some table; the BRI exit year is present iff listed; from the exit year on, BRI at speech is false |
| Segment.LanguageOf | split-txt.py:543 | the language is never empty: a non-empty note is returned as is, and no note or an empty note gives "English" |
| Segment.LastIndexOf | split-txt.py:548 | the last index of a character, or -1 when it is absent |
| Segment.Stem | split-txt.py:548 | `os.path.splitext(f)[0]` is a prefix of `f` |
| Segment.StemDropsExtension | split-txt.py:548 | the stem of `base.ext` is `base` |
| Segment.StemWithoutDot | split-txt.py:548 | a name without a dot is its own stem |
| Segment.OutputFile | split-txt.py:548-550 | the speech file name starts with the speech ID and `_`, and ends with `.txt` |
| Segment.OutputFileOfTranscript | split-txt.py:548-550 | for a transcript `base.txt`, the name is `<id>_<base>_<sanitised country>.txt` |
| Segment.OutputFilesDistinct | split-txt.py:547-550 | speeches with different counter values get different file names, whatever their meetings and countries |
| Segment.Enrich | split-txt.py:537-637 | a speech row raises iff its memberships raise; otherwise it carries the ID of its counter value and a non-empty language, and has word count 0 iff its body is blank |
| Segment.Outcomes | split-txt.py:519-546 | there is one outcome per speech start |
| Segment.Collect | split-txt.py:519-646 | the loop keeps one row per speech until the first that raises: all rows if none raises, fewer otherwise |
| Segment.CollectRows | split-txt.py:519-646 | the kept rows are the outcomes in order, and a raise is caused by the next outcome |
| Segment.CollectStops | split-txt.py:519-646 | nothing is added after a raise |
| Segment.CollectAll | split-txt.py:519-646 | when no outcome raises, the loop does not raise |
| Segment.OutcomeAt | split-txt.py:546-547 | speech k of the file is described with counter value `counter + k + 1` |
| Segment.KnownYearEnriches | split-txt.py:540 | with a known year, describing a speech never raises |
| Segment.KnownYearNeverRaises | split-txt.py:540 | with a known year, no outcome of the file raises |
| Segment.BuildRecordsNumbered | split-txt.py:546-547 | row k of the file has ID `speech_{counter+k+1:05d}` |
| Segment.BuildRecordsAllNumbered | split-txt.py:546-547 | every row of the file has the ID that follows the counter by its position |
| Segment.UnmatchedNext | split-txt.py:508-510 | one more loose match is flagged exactly when its start is not a strict-match start |
| Segment.UnmatchedListed | split-txt.py:508-510 | the flagged matches are exactly the loose matches whose start is not a strict-match start |
| Segment.Excerpt | split-txt.py:511-514 | a flagged line is the start of the stripped match text, of length the smaller of 100 and that text's length |
| Segment.FlaggedEntries | split-txt.py:512-516 | there is one flagged entry per unmatched loose match |
| Segment.FlaggedEntriesShape | split-txt.py:512-516 | each flagged entry names the file and keeps at most 100 characters |
| Segment.FlaggedEntriesAppend | split-txt.py:512-516 | flagging one more match appends its entry |
| Segment.HeadOfStateEntries | split-txt.py:499-505 | there is at most one head-of-state entry per strict match |
| Segment.HeadOfStateEntriesListed | split-txt.py:499-505 | an entry is listed iff it names the file and the speaker and country of a strict match whose speaker starts with President, Prime Minister or Sheikh |
| Segment.CountFlagged | split-txt.py:649 | the flagged count is at most the number of flagged lines |
| Segment.CountFlaggedAppend | split-txt.py:649 | counting over two lists adds up |
| Segment.CountFlaggedAll | split-txt.py:649 | lines that all name the file are all counted; lines that none name are not counted |
| Segment.Countries | split-txt.py:641 | a meeting has at most as many distinct countries as speeches |
| Segment.CountriesListed | split-txt.py:641 | the meeting's countries are exactly the countries of its rows |
| Segment.Languages | split-txt.py:642 | a meeting has at most as many languages as speeches |
| Segment.LanguagesListed | split-txt.py:642 | the meeting's languages are exactly the languages of its rows |
| Segment.HeadCount | split-txt.py:644-645 | the head-of-state count is at most the speech count |
| Segment.TotalWordsBound | split-txt.py:640 | each speech's word count is at most the meeting's total |
| Segment.Rollup | split-txt.py:647-661 | country and head-of-state counts are at most the speech count; a meeting with no speeches has no countries, no languages and no words |
| Segment.Section | split-txt.py:463-473 | the section after the heading is shorter than the transcript |
| Segment.SectionAfterHeading | split-txt.py:463-473 | the section is the text after the end of the leftmost heading match, and there is none exactly when no offset starts a heading |
| Segment.StepAppends | split-txt.py:457-661 | a file only appends to the run's lists; a file without the heading adds exactly one skip record and no rows; a file with it adds no skip record and, unless a speech raised, one meeting row |
| Segment.SectionStepAppends | split-txt.py:473-661 | a file with a general-debate section only appends, adds no skip record, and adds one meeting row for its file, whose speech count is the number of rows it added, exactly when no speech raised |
| Segment.NoDebateOnlySkips | split-txt.py:463-470 | a file without the heading adds one skip record and changes nothing else |
| Segment.MeetingRowAgrees | split-txt.py:640-661 | with a known year, the file adds one row per strict match and one meeting row whose speech count is the number of strict matches and whose word total is the sum over its rows |
| Segment.FlaggedCountIsOwn | split-txt.py:649 | when no earlier flagged line names the file, the meeting's flagged count is the number of its own unmatched loose matches |
| Segment.AppendNumbered | split-txt.py:546-547 | rows numbered on from the number of earlier rows extend a numbering that starts at 1 |
| Segment.StepKeepsNumbering | split-txt.py:546-547 | every file keeps the numbering: row k has ID k + 1, and the counter is the number of rows (one more after a raise) |
| Segment.SectionStepKeepsNumbering | split-txt.py:546-547 | a file with a general-debate section keeps the numbering |
| Segment.NumberedIdsDistinct | split-txt.py:547 | numbered rows have pairwise distinct IDs |
| Segment.RunFilesNumbered | split-txt.py:447-661 | the numbering holds after any list of files |
| Segment.TxtNames | split-txt.py:457 | any name ending in `.txt`, in either case, is processed |
| Segment.TxtHasDot | split-txt.py:457 | a processed name has `.` four characters from its end |
| Segment.RunFilesCounts | split-txt.py:447-661 | each file adds at most one skip record or meeting row, and every skip record is for a missing heading |
| Segment.RunFilesExtends | split-txt.py:447-661 | the run state after a prefix of the files is extended by the state after all of them |
| Segment.ExtendsTransitive | split-txt.py:447-661 | appending over two stretches of files is appending over both |
| Splitter.Extractor.constructor | split-txt.py:442-447 | the run starts with empty lists and the counter at 0 |
| Splitter.Extractor.CollectStarts | split-txt.py:483-505 | the strict loop builds `speeches` and `strict_match_positions` from the matches, and appends the head-of-state entries |
| Splitter.Extractor.FlagPotentialSpeeches | split-txt.py:508-516 | the loose loop appends exactly the entries of the unmatched loose matches |
| Splitter.Extractor.ScanSection | split-txt.py:483-516 | both match loops of one file: the speech starts, head-of-state entries and flagged entries |
| Splitter.Extractor.ExtractSpeeches | split-txt.py:519-645 | the speech loop appends the rows until the first raise, moves the counter by one per described speech, and accumulates the meeting's count, words, countries, languages and head-of-state count |
| Splitter.Extractor.CountFlaggedLines | split-txt.py:649 | counts the flagged lines that name the file |
| Splitter.Extractor.FinishSection | split-txt.py:519-661 | the speech loop and the meeting row: the rows and counter of `BuildRecords`, and a meeting row only when no speech raised |
| Splitter.Extractor.ProcessSection | split-txt.py:473-661 | the body after the heading appends the unmatched loose matches' flagged entries, the head-of-state entries and the rows of `BuildRecords`, moves the counter by one per described speech, sets the abort flag iff a speech raised, and appends the meeting row only when none did |
| Splitter.Extractor.ProcessFile | split-txt.py:457-661 | one file moves the run from `s` to `Step(s, file)` |
| Splitter.Describe | split-txt.py:519-637 | the speech loop's body computes the row `Enrich` defines: the span end as the minimum of the candidates, the metadata, the sanitised file name, and the memberships, which may raise |
| Splitter.DescribeAt | split-txt.py:546-547 | speech i is described with counter value `counter + i + 1` |
| Splitter.RollupNext | split-txt.py:640-645 | one more row adds its words, its country, its language and its head-of-state flag to the rollup |
| Splitter.RunFilesStops | split-txt.py:439-661 | once a speech has raised, later files change nothing |
| Splitter.SplitTexts | split-txt.py:439-661 | running the extractor over the files yields `RunFiles`; all speech IDs it hands out are pairwise distinct |
| Splitter.SplitTextsWith | split-txt.py:439-661 | the same loop over any reference tables yields `RunFiles` for those tables, with pairwise distinct speech IDs |
| Splitter.RunFilesNext | split-txt.py:448-457 | the run after one more file is the run before it when a speech has raised or the file is not a `.txt`, and one `Step` on that file otherwise |
| Splitter.RunFilesIdsDistinct | split-txt.py:439-661 | over any files, the speech IDs of the run are pairwise distinct |

## Left out

- Directory listing, file reading and writing, `os.makedirs`, `tqdm`, the pandas and CSV exports and the log file (split-txt.py:441-460, 554-571, 663-795).
  - These are I/O.
  - `SplitTexts` takes the transcripts as a list of (session directory, file name, text) in listing order.
  - Non-directory entries of the input directory are not represented.
- The `[METADATA]` header written to each speech file (split-txt.py:554-571): output formatting. It uses the same membership values the row holds.
- The `output_path` column (split-txt.py:551, 608): a directory join. The row keeps the file name `speech_filename`, and the row holds the speech text in its place.
- Tables.Source: the region and membership tables hold a representative subset of the entries (27 of 211 regions, 6 of 56 FOCAC, 4 of 24 CASCF, 5 of 11 SCO, 4 of 15 SCO dialogue partners, 17 of 149 BRI, 4 of 34 CELAC), with the source's values. The session table, the SCO observers and the BRI exits are complete.
- Sanitize.Nfkd: decomposes only the twelve precomposed Latin letters of its table, not the whole Unicode NFKD mapping. `unicodedata` is a foreign library.
- Sanitize.StripCombining: treats the block U+0300 to U+036F (except U+034F) as the combining marks. Combining marks outside that block are not modelled.
- Patterns.IsHeadOfState: the `re.IGNORECASE` matching folds only ASCII letters. Unicode case-fold equivalents of the letters of "sheikh" and "prime minister" (U+017F LONG S, U+0130 and U+0131 for `i`, U+212A KELVIN SIGN for `k`) are not modelled.
- Segment.Rollup: keeps the meeting's countries and languages as sets. The `'; '.join(sorted(...))` strings (split-txt.py:656-657) are not built.
- Segment.MeetingRowAgrees: is stated for sessions with a known year. For an unknown year, `Segment.Collect` and `Segment.CollectRows` describe the early stop.
- Format.SpeechId: the counter is an unbounded natural number. Past 99999 the ID simply has more digits, as Python's `:05d` does.
- The other scripts of the repository (`undl-fetch.py`, `pdf-to-full-txt.py`, `count-meetings.py`) are not part of this model: they are network, PDF conversion and directory counting.
