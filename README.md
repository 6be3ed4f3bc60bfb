# D&D Scribe transcript formatter — a Dafny model

D&D Scribe turns a recorded tabletop session into a plain-text transcript.
A speech engine produces timed segments. The script then formats them into
a fixed layout and saves the result under a time-stamped file name. This
project models the deterministic part of `dnd-scribe.py` and proves what
its layout promises:

- **`format_timestamp`** (module `Timestamp`) renders a whole number of
  seconds as `HH:MM:SS`. Hours, minutes and seconds come from floor
  division and modulo. Each field is zero-padded to two digits, and the
  hours field grows past two digits instead of being cut.
- **`create_dnd_transcript`** (module `Transcript`) is modelled as the
  method `CreateTranscript`. Like the source, it appends to a growing list
  of lines and then joins them with newlines. It is proved equal to the
  join of the specification function `TranscriptLines`:
  - four header lines: title, 50 `=`, `Generated on: <instant>`, a blank;
  - then, per segment and in order, `[<timestamp>]`, the stripped text, a blank.
- **Python string built-ins** (module `PyStrings`) used by the formatter:
  `str.strip()`, `c * n`, `"\n".join`, and `str.split("\n")`. The split
  serves as the join's inverse partner.
- **Fixed-size blocks** (module `LineBlocks`): a generic account of
  rendering a sequence of items as consecutive three-line blocks. It is
  used to locate each segment's lines.
- **Device resolution and compute type** (module `Device`): how the
  `AUTO`/`GPU`/`CPU` radio choice and CUDA availability determine the
  device, and how the device determines the precision.
- **The session file name** (module `SessionFile`): `dnd_session_<stamp>.txt`.

Segments are values `Segment(start: nat, text: string)`. The two clock
reads are parameters:

- the header's generation instant, already formatted as `%Y-%m-%d %H:%M:%S`;
- the file name's stamp, already formatted as `%Y%m%d_%H%M%S`.

The code reads the clock twice, at `dnd-scribe.py:60` and at
`dnd-scribe.py:256`. The two values can therefore differ, for example
across a second boundary. The model follows the code and keeps them as
two independent parameters; it does not treat them as one shared instant.

CUDA availability is a boolean parameter.

## Model

| member | source | states |
|---|---|---|
| Timestamp.ToClock | dnd-scribe.py:48-50 | the three fields `seconds // 3600`, `(seconds % 3600) // 60` and `seconds % 60`; ToClockDecomposes and ToClockUnique state that they are the unique exact decomposition with minutes and seconds below 60 |
| Timestamp.ToClockDecomposes | dnd-scribe.py:48-50 | minutes and seconds are below 60, and `hours*3600 + minutes*60 + secs` equals the input exactly; hours is unbounded |
| Timestamp.ToClockUnique | dnd-scribe.py:48-50 | any decomposition with minutes and seconds below 60 is the one floor division and modulo produce |
| Timestamp.Decimal | dnd-scribe.py:51 | `str(n)` for the `d` conversion; DecimalShape states its length, digits and lack of a leading zero, and DecimalRoundTrip that it reads back as n |
| Timestamp.DecimalShape | dnd-scribe.py:51 | the decimal rendering of an integer has `NumDigits(n)` digits, all decimal, with no leading zero except for 0 itself |
| Timestamp.DecimalRoundTrip | dnd-scribe.py:51 | the decimal rendering reads back as the integer it came from |
| Timestamp.NumDigitsAtMostTwo | dnd-scribe.py:51 | a number needs at most two digits exactly when it is below 100 |
| Timestamp.ZeroPad2Shape | dnd-scribe.py:51 | `02d` padding yields length `max(2, len)`, keeps the whole original as its tail and adds only zeros in front |
| Timestamp.Field | dnd-scribe.py:51 | one `{n:02d}` field; FieldShape states it is at least two digits, exactly two below 100, never truncated, and reads back as n |
| Timestamp.FieldShape | dnd-scribe.py:51 | a `02d` field has length `max(2, digits(n))`, is two long exactly when n < 100, is all digits, and reads back as n |
| Timestamp.FormatTimestamp | dnd-scribe.py:46-51 | `format_timestamp` on whole seconds; FormatTimestampShape, FormatTimestampFields and FormatTimestampRoundTrip state its layout, the value of each field and that it loses nothing |
| Timestamp.FormatTimestampShape | dnd-scribe.py:46-51 | the timestamp has length `max(2, digits(hours)) + 6`, colons exactly at the two separator positions and digits everywhere else |
| Timestamp.FormatTimestampFields | dnd-scribe.py:48-51 | the part before the first colon reads back as `seconds // 3600`, the two digits between the colons as `(seconds % 3600) // 60`, and the last two digits as `seconds % 60` |
| Timestamp.FormatTimestampRoundTrip | dnd-scribe.py:46-51 | parsing the timestamp back as `H*3600 + M*60 + S` gives the input seconds, so nothing is lost or truncated |
| Timestamp.FormatTimestampInjective | dnd-scribe.py:46-51 | two different durations never render to the same timestamp |
| Timestamp.ExampleClocks | dnd-scribe.py:48-50 | the fields of 0, 59, 65, 3661 and 360000 seconds, 100 hours included |
| Timestamp.ExampleFields | dnd-scribe.py:51 | `02d` renders 0, 1, 5, 59 and 100 as `00`, `01`, `05`, `59`, `100` |
| Timestamp.FormatTimestampExamples | dnd-scribe.py:46-51 | 0, 59, 65, 3661 and 360000 seconds render as `00:00:00`, `00:00:59`, `00:01:05`, `01:01:01` and `100:00:00` |
| PyStrings.Strip | dnd-scribe.py:69 | `str.strip()`; StripIsSlice, StripUnique and StripIdempotent state that it returns the trimmed core between two whitespace runs, and that a second strip changes nothing |
| PyStrings.StripLeftShape | dnd-scribe.py:69 | left stripping keeps a suffix, removes only whitespace, and leaves no leading whitespace |
| PyStrings.StripRightShape | dnd-scribe.py:69 | right stripping keeps a prefix, removes only whitespace, and leaves no trailing whitespace |
| PyStrings.StripIsSlice | dnd-scribe.py:69 | `strip()` returns a trimmed contiguous slice of its input with only whitespace on either side, so interior characters, newlines included, are kept |
| PyStrings.StripLeftSkips | dnd-scribe.py:69 | a whitespace run before a non-space start is removed and nothing else |
| PyStrings.StripRightSkips | dnd-scribe.py:69 | a whitespace run after a non-space end is removed and nothing else |
| PyStrings.StripUnique | dnd-scribe.py:69 | whitespace, then a trimmed core, then whitespace strips to exactly that core |
| PyStrings.StripIdempotent | dnd-scribe.py:69 | stripping twice equals stripping once |
| PyStrings.JoinLines | dnd-scribe.py:73 | `"\n".join(lines)`; SplitJoin states that splitting at `\n` recovers newline-free lines, and JoinEmptyLast that a final empty line adds exactly one trailing `\n` |
| PyStrings.Repeat | dnd-scribe.py:59 | `"=" * 50` as n copies of one character; HeaderLines states the rule is exactly 50 `=` |
| PyStrings.SplitAfterLine | dnd-scribe.py:73 | splitting at newlines detaches a newline-free first line followed by `\n` |
| PyStrings.SplitSingleLine | dnd-scribe.py:73 | a newline-free string splits into itself alone |
| PyStrings.SplitJoin | dnd-scribe.py:73 | splitting the `"\n".join` of newline-free lines gives the same lines back |
| PyStrings.JoinEmptyLast | dnd-scribe.py:73 | joining with a final empty line equals the join of the rest followed by `\n` |
| LineBlocks.RenderAllLength | dnd-scribe.py:63-71 | rendering n items as three-line blocks gives exactly 3n lines |
| LineBlocks.RenderAllSnoc | dnd-scribe.py:63-71 | one more item appends exactly its own block |
| LineBlocks.RenderAllAppend | dnd-scribe.py:63-71 | the rendering of a concatenation is the concatenation of the renderings |
| LineBlocks.RenderAllAt | dnd-scribe.py:63-71 | lines `3i` to `3i+2` are exactly the block of item i |
| LineBlocks.RenderAllLine | dnd-scribe.py:63-71 | line `3i+j` is line j of the block of item i |
| Transcript.Header | dnd-scribe.py:58-61 | the four header appends; HeaderLines states each of the four lines and HeaderHasNoNewline that they hold no newline |
| Transcript.TimestampLine | dnd-scribe.py:65-66 | `f"[{timestamp}]"` for a segment start; WelcomeStamps gives two instances and TimestampLineHasNoNewline states it holds no newline |
| Transcript.Block | dnd-scribe.py:64-71 | each segment contributes exactly three lines |
| Transcript.Blocks | dnd-scribe.py:63-71 | the lines the loop appends for all segments, in order; BlocksAt places segment i at lines 3i to 3i+2 and BlocksAppend states they concatenate |
| Transcript.TranscriptLines | dnd-scribe.py:55-71 | the complete line list before the join; TranscriptLength, HeaderLines and SegmentLinesAt state its length and every line |
| Transcript.TranscriptLinesSnoc | dnd-scribe.py:63-71 | processing one more segment appends exactly that segment's three lines |
| Transcript.CreateTranscript | dnd-scribe.py:53-73 | the document built by appending, loop iteration by loop iteration, is the `"\n"` join of the header lines followed by every segment's block |
| Transcript.TranscriptLength | dnd-scribe.py:55-71 | the line list has exactly `4 + 3 * number of segments` lines |
| Transcript.HeaderLines | dnd-scribe.py:58-61 | lines 0 to 3 are the title, a rule of exactly 50 `=`, `Generated on: ` followed by the instant, and a blank line |
| Transcript.BlocksAt | dnd-scribe.py:63-71 | in the block part, lines `3i`, `3i+1` and `3i+2` are segment i's bracketed timestamp, stripped text and blank |
| Transcript.SegmentLinesAt | dnd-scribe.py:63-71 | lines `4+3i`, `4+3i+1` and `4+3i+2` of the transcript are `[` + timestamp + `]`, the stripped text and `""` of segment i, so no segment is dropped, merged or reordered |
| Transcript.BlocksAppend | dnd-scribe.py:63-71 | the blocks of two segment lists back to back are the blocks of each, in order |
| Transcript.EmptyTranscript | dnd-scribe.py:55-73 | with no segments the lines are the header alone, and the document is title, rule and generated-on line, each followed by `\n` |
| Transcript.EndsWithNewline | dnd-scribe.py:71-73 | the document is never empty and always ends in `\n`, because its last line is empty |
| Transcript.TimestampLineHasNoNewline | dnd-scribe.py:65-66 | a bracketed timestamp line holds no newline |
| Transcript.HeaderHasNoNewline | dnd-scribe.py:58-61 | the header lines hold no newline when the instant holds none |
| Transcript.LineHasNoNewline | dnd-scribe.py:58-71 | every transcript line is newline-free when the instant and all stripped texts are |
| Transcript.SplitRecoversLines | dnd-scribe.py:73 | when the instant and all stripped texts are newline-free, splitting the document at `\n` gives back the line list |
| Transcript.StripExamples | dnd-scribe.py:69 | `"  hello world  \n"` strips to `"hello world"`, and `" a\nb "` keeps its interior newline |
| Transcript.WelcomeStamps | dnd-scribe.py:65-66 | starts 0 and 65 give timestamp lines `[00:00:00]` and `[00:01:05]` |
| Transcript.WelcomeTexts | dnd-scribe.py:69 | already trimmed texts strip to themselves |
| Transcript.WelcomeSegmentBlocks | dnd-scribe.py:63-71 | the segments (0, "Welcome") and (65, "Let's begin.") each render to a timestamp line, their text and a blank |
| Transcript.WelcomeBlocks | dnd-scribe.py:63-71 | the blocks of segments (0, "Welcome") and (65, "Let's begin.") |
| Transcript.WelcomeHeader | dnd-scribe.py:58-61 | the header for the instant `2024-01-01 12:00:00` |
| Transcript.WelcomeExample | dnd-scribe.py:53-73 | the complete ten-line list for that two-segment session at that instant |
| Device.OptionValue | dnd-scribe.py:102-106 | the `device_options` table; ManualChoiceIgnoresCuda states that GPU and CPU resolve to their table value and ResolvedIsNeverAuto that the `"auto"` value never becomes the device |
| Device.DefaultChoice | dnd-scribe.py:111 | the radio default, AUTO with CUDA and CPU without; DefaultAgreesWithAuto states it resolves as AUTO does |
| Device.ResolveDevice | dnd-scribe.py:116-120 | the device is `"cuda"` or `"cpu"`, and it is `"cuda"` exactly when GPU is chosen, or AUTO is chosen with CUDA available |
| Device.ManualChoiceIgnoresCuda | dnd-scribe.py:119-120 | a GPU or CPU choice yields its table value whether or not CUDA is available |
| Device.ResolvedIsNeverAuto | dnd-scribe.py:102-120 | the table's `"auto"` placeholder never becomes the device |
| Device.DefaultAgreesWithAuto | dnd-scribe.py:111-120 | the radio default (AUTO with CUDA, CPU without) resolves exactly as AUTO does |
| Device.ComputeType | dnd-scribe.py:211-214 | the compute type is `"float16"` or `"int8"`, and it is `"float16"` exactly when the device is `"cuda"` |
| Device.HalfPrecisionOnlyOnGpu | dnd-scribe.py:211-214 | after resolution, half precision is used exactly when the GPU is used, and `int8` exactly when the device is `"cpu"` |
| SessionFile.SessionFileName | dnd-scribe.py:256 | the name is `dnd_session_`, then the stamp, then `.txt`, with lengths adding up |
| SessionFile.StampRoundTrip | dnd-scribe.py:256 | the stamp can be read back from the file name |
| SessionFile.SessionFileNameInjective | dnd-scribe.py:256 | distinct stamps give distinct file names |

## Left out

- The Streamlit page is not modelled. This covers the page setup and styling, the radio buttons, the uploader, the info, success and warning messages, and the session state. It is presentation only.
- CUDA detection through `torch` is not modelled. It calls into a library outside this repository, so its answer is the boolean `cudaAvailable`.
- Loading the Whisper model and `transcribe` are not modelled. The engine is third-party and opaque. The CPU fallback after a failed load depends on an exception from that engine, so it is left out too. As a result, the model says which device and precision are *requested*, not which the engine finally runs on.
- The Downloads-folder write and the temporary-file handling are not modelled. They are file I/O.
- The clock reads (`datetime.now()` with `strftime`) are not modelled. The header instant and the file-name stamp are formatted strings passed in as parameters.
- `get_model_size` is not modelled. It only maps a radio label to a model name for the engine.
- The total-time message at line 261 is not modelled as its own operation. It is `format_timestamp` applied to the engine's duration, and it only feeds a UI message.
- Timestamp.FormatTimestamp: takes whole non-negative seconds (`nat`). The source accepts a float. For non-negative input, each `int(...)` field equals the same expression on the floor of the input, so every rendering is covered. Negative input, where `//` and `%` floor in Python, is outside the source's contract and not modelled.
- PyStrings.Strip: removes only space, `\t`, `\n`, `\r`, `\x0b` and `\x0c`. Python's `str.strip()` also removes `\x1c` to `\x1f` and the non-ASCII whitespace characters, such as `\x85` and `\xa0`.
- Segments carry only `start` and `text`. The engine's other segment fields are never read by the formatter.
