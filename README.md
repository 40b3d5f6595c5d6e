# Transcripts and their LRC rendering

This project models the transcript part of a desktop tool that turns an audio
file into a lyric (LRC) file before muxing it into a video:

- the `Utterance` and `Transcript` records;
- the collection loop of `Whisper::transcribe`, which walks the speech
  engine's segments and, when word timestamps are asked for, their tokens;
- the formatter `Transcript::as_lrc`, which renders the word-level utterances
  when there are any and the segment-level ones otherwise. Each utterance
  becomes the two lines `[mm:ss.cc]text` and `[mm:ss.cc]`.

Files:

- `wrappers.dfy` (module `Wrappers`): `Option` and `Result`.
- `format.dfy` (module `Format`): Rust's integer semantics as `as_lrc` uses them.
  `/` and `%` on `i64` truncate toward zero (`TruncDiv`, `TruncRem`). `{:02}`
  is a zero-padded decimal of minimum width two (`Pad2`, built on `Decimal`).
- `whisper.dfy` (module `Whisper`): the records, the stamp fields (`ClockOf`),
  the block and fold of `as_lrc` (`Block`, `Lrc`, `Transcript.AsLrc`), and the
  engine's output as plain values (`Segment`, `Token`). `Transcribe` is a
  method with the source's segment loop and its `continue`. The token loop
  nested inside it is the method `CollectWords`, which `Transcribe` calls once
  per segment when word timestamps are asked for. `Transcribe` is proved equal to the specification function
  `Transcription`, and lemmas characterise the word filter.
- `lrc_read.dfy` (module `LrcRead`): a reader for the LRC text (`Lines`,
  `ParseStamp`, `ParseTag`, `DecodeLrc`). It is the partner of the formatter.
  For utterances with non-negative timestamps and single-line texts, reading
  back what `as_lrc` wrote gives the utterances that were rendered, in order
  (`LrcRoundTrip`). That text is also exactly two lines per utterance.

Modelling decisions:

- Timestamps are a newtype `i64`.
- `as_lrc` is defined for every timestamp. A negative time follows Rust
  exactly: the quotient truncates, the remainder keeps the sign, and `{:02}`
  prints the sign, so -5 prints as `-5`. Field bounds and losslessness are
  stated for non-negative times, the only ones the engine reports.
- The fold runs from `String::new()` and appends one block at a time, so `Lrc`
  recurses on the last element. For the loop, each `Vec::push` becomes an
  append to a local sequence.
- The engine's result is an input: a sequence of segments, each with its
  text, `t0`, `t1` and tokens. `full_n_segments` and `full_n_tokens` are the
  lengths of those sequences.
- LRC files appear both with one stamp per line and with a start line followed
  by an end line. `as_lrc` writes the latter: a start line with the text, then
  an end-stamp line. The model follows it.
- `Stamp` and `Tag` (the `[{:02}:{:02}.{:02}]` part of the `format!` call at
  src/whisper.rs:121-130) carry no contract of their own. Their properties are
  the lemmas `StampChars`, `StampRoundTrip`, `TagRoundTrip` and the sample
  stamps.

## Model

| member | source | states |
|---|---|---|
| `Whisper.Transcript.Rendered` | src/whisper.rs:115-117 | the word-level utterances when `word_utterances` is `Some`, the segment-level ones otherwise |
| `Whisper.Transcript.AsLrc` | src/whisper.rs:114-132 | renders `word_utterances` when it is `Some` and `utterances` otherwise; the text is empty exactly when the rendered list is empty |
| `Whisper.Lrc` | src/whisper.rs:118-131 | the fold from the empty string is empty exactly for an empty list and otherwise ends in a newline |
| `Whisper.LrcAppend` | src/whisper.rs:118-131 | rendering a concatenation is the concatenation of the renderings: the blocks appear in utterance order |
| `Whisper.LrcFront` | src/whisper.rs:118-131 | the output starts with the first utterance's block, followed by the rendering of the rest |
| `Whisper.ClockOf` | src/whisper.rs:123-129 | the fields `t/100/60`, `t/100%60`, `t%100` recombine to `t` as minutes*6000 + seconds*100 + centiseconds; for `t >= 0` the seconds lie in 0..59 and the centiseconds in 0..99 |
| `Whisper.ClockOfUnique` | src/whisper.rs:123-129 | for `t >= 0` these fields are the only in-range triple that recombines to `t` |
| `Format.TruncDiv` | src/whisper.rs:123-124 | Rust's `/` on `i64` for a positive divisor (the source divides by 100 and 60): the quotient rounded toward zero |
| `Format.TruncRem` | src/whisper.rs:124-125 | Rust's `%` on `i64` for a positive divisor: the quotient times the divisor plus the remainder is the dividend, and the remainder has the dividend's sign and is smaller than the divisor in magnitude |
| `Format.Decimal` | src/whisper.rs:122 | the decimal rendering of a natural number: digits only, at least one, no leading zero, and it reads back as the number |
| `Format.Pad2` | src/whisper.rs:122 | `{:02}`: at least two characters; a value in 0..9 gets a leading `0`; a value in 0..99 is exactly two digits; a larger value is printed in full, so it reads back unchanged; a negative value is `-` followed by its magnitude |
| `Format.Pad2Negative` | src/whisper.rs:122 | a negative value prints as exactly `-` and its unpadded decimal magnitude, as Rust's `{:02}` does |
| `Format.Pad2OfMinus5` | src/whisper.rs:122 | -5 prints as `-5`: the sign counts towards the width of two |
| `Whisper.Block` | src/whisper.rs:121-130 | one utterance's block starts with the `[` of its start tag and ends in the newline after its end tag |
| `LrcRead.LinesOfBlock` | src/whisper.rs:122 | a block is exactly two newline-terminated lines, `[start]text` and `[end]`, when the text has no newline |
| `LrcRead.LinesOfBlockThen` | src/whisper.rs:118-122 | when the text has no newline, a block followed by more output contributes its two lines and then the lines of what follows, so the fold's output splits block by block |
| `LrcRead.StampChars` | src/whisper.rs:121-130 | a stamp consists of digits, `:`, `.` and `-` only |
| `LrcRead.BlockRoundTrip` | src/whisper.rs:122 | for non-negative stamps, a block's first line reads back as the start time and the text, and its second line as the end time with nothing after it |
| `LrcRead.StampRoundTrip` | src/whisper.rs:121-130 | for `t >= 0` the `mm:ss.cc` stamp reads back as `t`: the stamp is lossless |
| `LrcRead.TagRoundTrip` | src/whisper.rs:122 | for `t >= 0`, a `[stamp]` tag followed by any text reads back as the time and that text |
| `LrcRead.StampOf65` | src/whisper.rs:121-130 | 65 centiseconds prints as `00:00.65` |
| `LrcRead.StampOf6565` | src/whisper.rs:121-130 | 6565 centiseconds prints as `01:05.65` |
| `LrcRead.StampOf600001` | src/whisper.rs:121-130 | 600001 centiseconds prints as `100:00.01`: the minute field is widened, not truncated |
| `LrcRead.LrcRoundTrip` | src/whisper.rs:118-131 | for non-negative stamps and single-line texts, the rendered text has two lines per utterance, and reading it gives back exactly the rendered utterances, in order |
| `LrcRead.AsLrcRoundTrip` | src/whisper.rs:114-132 | for a transcript whose rendered list has non-negative stamps and single-line texts, `as_lrc` writes two lines per rendered utterance, and its text reads back as `word_utterances` when present, else `utterances` |
| `Whisper.Transcription` | src/whisper.rs:57-109 | the result is an error exactly when the engine reports zero segments; otherwise there is one utterance per segment, and `word_utterances` is `Some` exactly when word timestamps were asked for |
| `Whisper.CollectWords` | src/whisper.rs:85-102 | appends exactly the filtered tokens of one segment, in order, and reads every token |
| `Whisper.Transcribe` | src/whisper.rs:57-109 | the loop's result equals `Transcription`; it reads every token when word timestamps are asked for and no token otherwise |
| `Whisper.SegmentUtterances` | src/whisper.rs:64-75 | one utterance per segment, in segment order, carrying that segment's text, t0 and t1 |
| `Whisper.TokenWords` | src/whisper.rs:85-102 | keeps at most as many utterances as there are tokens, and none of them has a text starting with `[_` |
| `Whisper.TokenWordsAppend` | src/whisper.rs:85-102 | filtering a concatenation of token runs concatenates the filtered runs |
| `Whisper.WordUtterances` | src/whisper.rs:85-102 | the words collected over all segments are no more than the tokens, and none has a text starting with `[_` |
| `Whisper.WordUtterancesAreFilteredTokens` | src/whisper.rs:64-103 | the word utterances are the filter applied to all tokens, in segment-then-token order |
| `Whisper.KeptIndices` | src/whisper.rs:93-95 | the positions of tokens whose text does not start with `[_`, strictly increasing, and exactly those positions |
| `Whisper.TokenWordsAreKeptTokens` | src/whisper.rs:85-102 | the k-th word utterance is the k-th kept token, with its own text, t0 and t1: contents and order are fully determined |

## Left out

- `Whisper::new` (src/whisper.rs:32-38): model download and construction of the foreign `WhisperContext`.
- The engine set-up in `transcribe` (src/whisper.rs:41-55): the `FullParams` settings, audio decoding through `utils::read_file`, state creation and the `full` call. These are foreign calls, and their `expect` panics go with them. The engine's result is an input to the model instead.
- `processing_time` (src/whisper.rs:14, 53, 107): it is read from the wall clock, so it is not part of the modelled `Transcript`.
- The getter failures of `transcribe` (src/whisper.rs:57-91: the `expect` on `full_n_segments` and the `map_err` paths): the model treats the engine's getters as total. It models only the `No segments found` error, as `TranscribeError.NoSegments`.
- `Serialize`/`Deserialize` on the records: serialisation code is generated by a library and is not modelled.
- src/conv.rs, src/utils.rs, src/ui.rs, src/main.rs and build.rs are not part of this model. They contain the GUI, file dialogs, writing the `.lrc` file, staging and ffmpeg invocation, and the global flags. All of this is I/O or cross-task signalling.
- The batch merge orchestration, with progress counters, cancellation and multi-file pairing, is not present in these files, so it is not modelled. The same holds for an SRT formatter: none exists in src/whisper.rs.
- `start <= end` and monotonic timestamps: the engine is expected to provide these, but the code neither checks nor relies on them, so the model assumes nothing about them.
- `LrcRead.AsLrcRoundTrip`: like `LrcRoundTrip`, it is stated only for a rendered list with non-negative timestamps and texts without a newline.
- `LrcRead.LrcRoundTrip`: it is stated only for non-negative timestamps and texts without a newline. A negative stamp such as `-1:-5.-65` is not read back, and a text containing a newline splits its block into more lines.
