# Club ingestion model

A Dafny model of the ingestion layer of the club-award application
(`src/processors.py`). Each parser turns one raw source into per-club records
keyed by a canonical club name:

- `normalize_name` strips the surrounding whitespace from a name and lower-cases it
  (module `Text`).
- `parse_whatsapp_text_file_bytes` counts the message lines of one chat transcript
  and the distinct senders named on them (module `Transcript`). A line is a message
  when it holds both a `-` and a `:`. The sender regex `-\s*(.+?):` is modelled step by step, with `\s` over ASCII:
  - `re.search` takes the leftmost match;
  - the greedy `\s*` backtracks;
  - the group is lazy and holds at least one character.
- `parse_whatsapp_folder` builds one row per uploaded transcript, named after the
  file without its extension, as `posixpath.splitext` computes it. A file whose
  read fails gets a zero row of its own (module `ChatFolder`).
- `parse_survey` and `parse_event_log` change a DataFrame in place and then group
  it by club. Modules `Frames`, `Grouping`, `Survey` and `EventLog` model them:
  - The DataFrame is a class `Frame`. Its labels and rows are fields, and the parsers
    relabel it, overwrite the `club_name` column and add default columns.
  - `groupby` is modelled by the pure functions `GroupKeys`, `Count`, `Select` and
    `Mean`. Its keys come out in ascending code-point order.
  - A cell is missing (NaN), text or a number. Numeric coercion (`pd.to_numeric(...,
    errors='coerce')`) is a parameter `parse: string -> Option<real>`, applied to text.
  - A mean over no valid value is `None`, which is what pandas' NaN stands for here.

Each parser is a method proved against a specification function
(`ParseTranscript`, `CountMessages`, `ParseWhatsAppFolder`, `ParseSurvey`,
`ParseEventLog`). The source's promises are proved as lemmas about those functions.
For the two table parsers, the aggregate is also read straight off the input rows
(`Survey.ByClub`, `EventLog.EventsByClub`), and a lemma proves that the
in-place steps compute exactly that.

In these places the model follows what the code does:
- A club whose values all fail to parse gets an undefined mean (NaN), not 0.
- `event_count` counts the titles that are not missing, not the rows. Every row is
  counted only when the title column is absent and defaulted to `""`.
- Column names must match exactly after stripping and lower-casing. The code knows
  no synonyms and no yes/no mapping.
- `src/processors.py` computes no event-keyword count, no feedback concatenation and no
  grouping text.
- A read failure is isolated to its file, but a file object with an empty `name`
  aborts the whole call. `os.path.basename` then raises outside the `try`
  (src/processors.py:67).

## Model

| member | source | states |
|---|---|---|
| Text.NormalizeName | src/processors.py:9-10 | a key never starts or ends with whitespace and holds no upper-case letter |
| Text.NormalizeIdempotent | src/processors.py:9-10 | normalising a key again leaves it unchanged |
| Text.NormalizeInsensitive | src/processors.py:9-10 | two spellings that differ only in letter case and in surrounding whitespace get the same key |
| Text.NormalizeLowersFirst | src/processors.py:9-10 | lower-casing before or after stripping gives the same key |
| Text.StripIgnoresMargins | src/processors.py:10 | whitespace added around a string never changes its stripped form |
| Text.StripLeading | src/processors.py:10 | `lstrip` drops exactly a leading run of whitespace and leaves a suffix that starts with a non-space |
| Text.StripTrailing | src/processors.py:10 | `rstrip` drops exactly a trailing run of whitespace and leaves a prefix that ends with a non-space |
| Text.StripBare | src/processors.py:10 | the result of `strip` neither starts nor ends with whitespace |
| Transcript.SenderIff | src/processors.py:54-61 | the pattern finds a sender iff some ':' stands at least two places after some '-'; only message lines have one |
| Transcript.SearchSkips | src/processors.py:59 | `search` skips every position where the pattern does not match |
| Transcript.SenderOfExportLine | src/processors.py:54-61 | on "12/01/24, 10:00 - Alice: hi" the sender is "Alice" |
| Transcript.SenderAfterBacktracking | src/processors.py:54-61 | on "x - :y" `\s*` gives back the space and the trimmed sender is empty |
| Transcript.KeptLines | src/processors.py:51 | every kept line is stripped and non-blank, and no more lines are kept than were read |
| Transcript.StripKeepsMarkers | src/processors.py:51-57 | stripping never changes whether a line holds both '-' and ':' |
| Transcript.ParseTranscript | src/processors.py:49-62 | returns the message count and the number of distinct senders over the stripped, non-blank lines |
| Transcript.CountMessages | src/processors.py:52-62 | the loop's counter is the number of message lines and its set holds exactly their senders |
| Transcript.MessageCountIsRaw | src/processors.py:51-58 | `total_msgs` equals the number of input lines with both '-' and ':', whatever the stripping and blank lines |
| Transcript.BlankTranscript | src/processors.py:50-62 | a transcript of blank lines gives no message and no sender |
| Transcript.SendersAtMostMessages | src/processors.py:53-62 | there are never more distinct senders than messages |
| Transcript.SendersExactly | src/processors.py:59-61 | a name is counted iff some message line yields it as its sender |
| Transcript.RepeatedSender | src/processors.py:58-61 | a further line from a known sender adds one message and no sender |
| Transcript.NonMessageIgnored | src/processors.py:57 | a line without both markers changes neither count |
| ChatFolder.ParseWhatsAppFolder | src/processors.py:64-83 | fails iff some upload has no usable name; otherwise exactly one row per file, in input order, each row that file's own |
| ChatFolder.ReadRow | src/processors.py:68-82 | one file's row: its normalised stem and the transcript counts, or zeros when the read failed |
| ChatFolder.FileRowFacts | src/processors.py:68-82 | the club is the normalised stem, a failed read gives zero counts, and senders never exceed messages |
| ChatFolder.StemOf | src/processors.py:68 | the stem is a prefix of the name; what it drops starts with '.' and holds no other '.' or '/' |
| ChatFolder.StemDropsExtension | src/processors.py:68 | `base.ext`, with no '/' in either part, loses exactly `.ext` when `base` has a character other than '.' |
| ChatFolder.DramaClubName | src/processors.py:67-68 | the upload "Drama_Club.txt" gives the club "drama_club" |
| ChatFolder.DotFileHasNoExtension | src/processors.py:68 | ".club" keeps its whole name, as `splitext` treats leading dots |
| Grouping.LessTotal | src/processors.py:38 | any two distinct keys are ordered one way or the other |
| Grouping.LessTransitive | src/processors.py:38 | the key order is transitive |
| Grouping.LessAsymmetric | src/processors.py:38 | no two keys each sort before the other, so with the two lemmas above the key order is a strict total order |
| Grouping.GroupKeys | src/processors.py:38 | the group keys are strictly ascending and are exactly the names that occur |
| Grouping.CountPositive | src/processors.py:41 | a group is non-empty iff its key occurs |
| Grouping.SelectLength | src/processors.py:38-41 | a group holds as many values as its key has rows |
| Grouping.GroupSizesSum | src/processors.py:41 | the group sizes add up to the number of rows |
| Grouping.MeanNoneIff | src/processors.py:39-40 | the mean is undefined exactly when no value is present |
| Grouping.MeanBetween | src/processors.py:39-40 | the mean lies between any bounds of the values present |
| Grouping.MeanOfConstant | src/processors.py:39-40 | a non-empty column holding one value has that value as its mean |
| Grouping.MeanOfSelectConstant | src/processors.py:31-40 | every group of a constant column has the constant as its mean |
| Frames.SetColumnCells | src/processors.py:28 | after `df[name] = cells` the column holds the cells and every other column is unchanged |
| Frames.DefaultKeepsColumn | src/processors.py:31-36 | adding a default column leaves every other column as it was |
| Frames.DefaultColumn | src/processors.py:31-36 | a defaulted column holds its original cells, or the default on every row |
| Frames.DefaultKeepsDuplicated | src/processors.py:98-101 | adding a default column neither adds nor removes a duplicate label |
| Frames.Frame.SetLabels | src/processors.py:23 | relabelling replaces the labels and keeps the rows |
| Frames.Frame.Assign | src/processors.py:28 | assigning a column gives the frame `SetColumn` of its old value |
| Survey.Prepare | src/processors.py:23-36 | a frame that gets through the in-place steps is ready for the group-by and keeps every row |
| Survey.ParseSurvey | src/processors.py:21-44 | the in-place steps on a `Frame` and the group-by give `SurveyOf` |
| Survey.SurveyFailsIff | src/processors.py:23-28 | fails with the missing-column error iff `club_name` is absent after normalising the labels, and fails at all iff the input does not parse |
| Survey.PreparedKeys | src/processors.py:28 | the prepared frame holds the normalised club name of every input row |
| Survey.PreparedNumbers | src/processors.py:31-34 | each numeric column, coerced, is the input's values, or 0 on every row when absent |
| Survey.SurveyIsByClub | src/processors.py:28-42 | the aggregate is exactly the per-club means and counts read off the input rows |
| Survey.SurveyKeys | src/processors.py:38-42 | one row per distinct normalised club name, in ascending order |
| Survey.SurveyCounts | src/processors.py:41 | every club has at least one response, and the responses sum to the number of input rows |
| Survey.AbsentColumnMeanIsZero | src/processors.py:31-40 | without a numeric column every club's mean of it is 0 |
| Survey.MeanUndefinedIff | src/processors.py:39-40 | a club's mean is undefined exactly when none of its values parse |
| EventLog.PrepareEvents | src/processors.py:94-103 | a frame that gets through the in-place steps is ready for the group-by and keeps every row |
| EventLog.AddDefaults | src/processors.py:98-101 | adds `event_title` and `event_description` with `""` when absent |
| EventLog.ParseEventLog | src/processors.py:88-109 | the in-place steps on a `Frame` and the group-by give `EventLogOf`: the changed frame and the aggregate |
| EventLog.EventLogFailsIff | src/processors.py:94-103 | fails with the missing-column error iff `club_name` is absent after normalising the labels, and fails at all iff the input does not parse |
| EventLog.PreparedEvents | src/processors.py:94-103 | the prepared frame keeps every row, holds the normalised club names and the input's titles |
| EventLog.EventLogIsByClub | src/processors.py:103-107 | the aggregate is exactly the per-club title counts read off the input rows |
| EventLog.EventKeys | src/processors.py:105-107 | one row per distinct normalised club name, in ascending order |
| EventLog.PresentAtMost | src/processors.py:106 | `count` is at most the number of cells, and equal to it iff none is missing |
| EventLog.ClubCountBounds | src/processors.py:106 | a club's `event_count` is at most its row count, and equals it iff none of its titles is missing |
| EventLog.AbsentTitlesCountRows | src/processors.py:98-106 | without an `event_title` column a club's `event_count` is its row count |
| EventLog.EventFrameKeepsRows | src/processors.py:94-109 | the returned frame keeps every input row, with its club names normalised |

## Left out

- Reading the sources: `pd.read_csv`, the `read_excel` fallback (src/processors.py:89-92), reading an upload or a file, and UTF-8 decoding with `errors='ignore'`. These are library and I/O calls. The model takes already-read tables and already-split lines, and a read that raises is `None` contents.
- `str.splitlines`: the transcript arrives as lines. The regex `.` is therefore any character, since no line holds a line break.
- The type inference of `read_csv`: a cell is given as missing, text or number. Numeric coercion of text is the parameter `parse`.
- Floating point: means are exact `real` sums divided by counts, and NaN is `None`.
- Unicode: `strip`, `lower` and the sender regex's `\s` are modelled over ASCII only (`str.isspace` whitespace below 128; `'A'..'Z'` lower-cased).
- Paths are POSIX paths (`posixpath.basename`, `posixpath.splitext`).
- `EVENT_KEYWORDS` (src/processors.py:12-16): defined but never used by the code.
- `feedback_text` (src/processors.py:35-36): filled with `""` when absent but never aggregated. The model fills it and stops there.
- Duplicate labels other than `club_name`: a lookup takes the first column with that label. The error pandas may raise for a duplicated aggregated column is not modelled.
- The returned pandas objects: the folder rows are a sequence, not a DataFrame, and the aggregates' `reset_index` is the row datatype.
- EventLog.ParseEventLog: returns the value of the changed frame (its labels and rows), not the frame object itself.
- The Streamlit front end and the scoring, categorisation and sentiment functions it imports. They are not defined in src/processors.py and are not part of this model.
