/**
 * The transcription results of src/whisper.rs: the `Utterance` and
 * `Transcript` records, the accumulation loop of `Whisper::transcribe` that
 * turns the recognition engine's segments and tokens into a transcript, and
 * the LRC formatter `Transcript::as_lrc`.
 */
module Whisper {
  import opened Wrappers
  import opened Format

  /** The range of Rust's `i64`. */
  predicate InI64(x: int) {
    -0x8000_0000_0000_0000 <= x < 0x8000_0000_0000_0000
  }

  /** Rust's `i64`, the type of the engine's centisecond timestamps. */
  newtype i64 = x: int | InI64(x)

  /** A span of recognised speech; `start` and `end` are in centiseconds. */
  datatype Utterance = Utterance(start: i64, end: i64, text: string)

  /**
   * The result of one transcription: one utterance per segment and, when word
   * timestamps were asked for, one per kept token. The wall-clock
   * `processing_time` is not modelled.
   */
  datatype Transcript = Transcript(utterances: seq<Utterance>, wordUtterances: Option<seq<Utterance>>)
  {
    /** The utterances `as_lrc` renders: the word-level ones when present. */
    function Rendered(): (us: seq<Utterance>)
      ensures wordUtterances.Some? ==> us == wordUtterances.value
      ensures wordUtterances.None? ==> us == utterances
    {
      match wordUtterances
      case Some(words) => words
      case None => utterances
    }

    /** `Transcript::as_lrc`: the LRC text of the rendered utterances. */
    function AsLrc(): (lrc: string)
      ensures wordUtterances.Some? ==> lrc == Lrc(wordUtterances.value)
      ensures wordUtterances.None? ==> lrc == Lrc(utterances)
      ensures lrc == [] <==> Rendered() == []
    {
      Lrc(Rendered())
    }
  }

  // ---------------------------------------------------------------------
  // Timestamps

  /** The three fields of an `[mm:ss.cc]` stamp. */
  datatype Clock = Clock(minutes: int, seconds: int, centis: int)

  function Centiseconds(c: Clock): int {
    c.minutes * 6000 + c.seconds * 100 + c.centis
  }

  /**
   * The fields `t / 100 / 60`, `t / 100 % 60` and `t % 100` under Rust's
   * truncating arithmetic. They always recombine to `t`; for a non-negative
   * `t` they are the minutes, a second in 0..59 and a centisecond in 0..99.
   */
  function ClockOf(t: int): (c: Clock)
    ensures Centiseconds(c) == t
    ensures t >= 0 ==> c.minutes >= 0 && 0 <= c.seconds < 60 && 0 <= c.centis < 100
    ensures t < 0 ==> c.minutes <= 0 && -60 < c.seconds <= 0 && -100 < c.centis <= 0
  {
    var secs := TruncDiv(t, 100);
    Clock(TruncDiv(secs, 60), TruncRem(secs, 60), TruncRem(t, 100))
  }

  /** For a non-negative time the fields of `ClockOf` are the only ones in range. */
  lemma ClockOfUnique(t: int, c: Clock)
    requires t >= 0 && Centiseconds(c) == t
    requires c.minutes >= 0 && 0 <= c.seconds < 60 && 0 <= c.centis < 100
    ensures ClockOf(t) == c
  {
    var secs := c.minutes * 60 + c.seconds;
    assert t == secs * 100 + c.centis;
    assert t / 100 == secs && t % 100 == c.centis;
    assert secs / 60 == c.minutes && secs % 60 == c.seconds;
  }

  /** The stamp `{:02}:{:02}.{:02}` of a time in centiseconds. */
  function Stamp(t: int): (s: string)
  {
    var c := ClockOf(t);
    Pad2(c.minutes) + ":" + Pad2(c.seconds) + "." + Pad2(c.centis)
  }

  /** The `[mm:ss.cc]` tag of a time. */
  function Tag(t: int): string {
    "[" + Stamp(t) + "]"
  }

  /**
   * The two-line LRC block `[{:02}:{:02}.{:02}]{}\n[{:02}:{:02}.{:02}]\n` of
   * one utterance: the start tag and the text, then the end tag alone.
   */
  function Block(u: Utterance): (b: string)
    ensures |b| >= 2 && b[0] == '[' && b[|b| - 1] == '\n'
  {
    Tag(u.start as int) + u.text + "\n" + Tag(u.end as int) + "\n"
  }

  /** The fold of `as_lrc`: the blocks of `us`, appended in order to `String::new()`. */
  function Lrc(us: seq<Utterance>): (lrc: string)
    ensures lrc == [] <==> us == []
    ensures us != [] ==> lrc[|lrc| - 1] == '\n'
  {
    if us == [] then "" else Lrc(us[..|us| - 1]) + Block(us[|us| - 1])
  }

  /** Rendering a concatenation renders each part in turn. */
  lemma {:induction false} LrcAppend(a: seq<Utterance>, b: seq<Utterance>)
    ensures Lrc(a + b) == Lrc(a) + Lrc(b)
    decreases |b|
  {
    if b == [] {
      assert a + b == a;
    } else {
      var init, last := b[..|b| - 1], b[|b| - 1];
      assert (a + b)[..|a + b| - 1] == a + init;
      var x, y, z := Lrc(a), Lrc(init), Block(last);
      LrcAppend(a, init);
      assert Lrc(a + b) == (x + y) + z;
      SeqAssoc(x, y, z);
      assert Lrc(b) == y + z;
    }
  }

  /** The first block of an LRC text is that of the first utterance. */
  lemma LrcFront(us: seq<Utterance>)
    requires us != []
    ensures Lrc(us) == Block(us[0]) + Lrc(us[1..])
  {
    assert us == [us[0]] + us[1..];
    LrcAppend([us[0]], us[1..]);
    assert [us[0]][..0] == [];
    var b := Block(us[0]);
    assert Lrc([us[0]]) == "" + b;
    SeqEmptyLeft(b);
  }

  // ---------------------------------------------------------------------
  // Recognition engine output and its accumulation

  /** A token the engine reports inside a segment. */
  datatype Token = Token(text: string, t0: i64, t1: i64)

  /** A segment the engine reports, with its tokens. */
  datatype Segment = Segment(text: string, t0: i64, t1: i64, tokens: seq<Token>)

  datatype TranscribeError = NoSegments

  predicate StartsWith(s: string, prefix: string) {
    |prefix| <= |s| && s[..|prefix|] == prefix
  }

  /** Internal control tokens, which carry the reserved prefix `[_`. */
  predicate IsControl(text: string) {
    StartsWith(text, "[_")
  }

  function SegmentUtterance(seg: Segment): Utterance {
    Utterance(seg.t0, seg.t1, seg.text)
  }

  function WordOf(tok: Token): Utterance {
    Utterance(tok.t0, tok.t1, tok.text)
  }

  /** One utterance per segment, in segment order. */
  function SegmentUtterances(segs: seq<Segment>): (us: seq<Utterance>)
    ensures |us| == |segs|
    ensures forall i :: 0 <= i < |segs| ==> us[i] == SegmentUtterance(segs[i])
  {
    if segs == [] then [] else SegmentUtterances(segs[..|segs| - 1]) + [SegmentUtterance(segs[|segs| - 1])]
  }

  /** The word utterances of a token sequence: every non-control token, in order. */
  function TokenWords(toks: seq<Token>): (ws: seq<Utterance>)
    ensures |ws| <= |toks|
    ensures forall j :: 0 <= j < |ws| ==> !IsControl(ws[j].text)
  {
    if toks == [] then []
    else
      var last := toks[|toks| - 1];
      TokenWords(toks[..|toks| - 1]) + (if IsControl(last.text) then [] else [WordOf(last)])
  }

  /** The word utterances of all segments, segment after segment. */
  function WordUtterances(segs: seq<Segment>): (ws: seq<Utterance>)
    ensures |ws| <= TokenCount(segs)
    ensures forall j :: 0 <= j < |ws| ==> !IsControl(ws[j].text)
  {
    if segs == [] then [] else WordUtterances(segs[..|segs| - 1]) + TokenWords(segs[|segs| - 1].tokens)
  }

  /** How many tokens the segments hold in all. */
  function TokenCount(segs: seq<Segment>): nat {
    if segs == [] then 0 else TokenCount(segs[..|segs| - 1]) + |segs[|segs| - 1].tokens|
  }

  /** What `transcribe` returns for the engine's segments. */
  function Transcription(segs: seq<Segment>, wordTimestamps: bool): (r: Result<Transcript, TranscribeError>)
    ensures r.Err? <==> |segs| == 0
    ensures r.Ok? ==> |r.value.utterances| == |segs|
    ensures r.Ok? ==> (r.value.wordUtterances.Some? <==> wordTimestamps)
  {
    if |segs| == 0 then Err(NoSegments)
    else Ok(Transcript(SegmentUtterances(segs),
                       if wordTimestamps then Some(WordUtterances(segs)) else None))
  }

  /** What one more segment adds to each of the three accumulations. */
  lemma SegmentStep(segs: seq<Segment>, s: nat)
    requires s < |segs|
    ensures SegmentUtterances(segs[..s + 1]) == SegmentUtterances(segs[..s]) + [SegmentUtterance(segs[s])]
    ensures WordUtterances(segs[..s + 1]) == WordUtterances(segs[..s]) + TokenWords(segs[s].tokens)
    ensures TokenCount(segs[..s + 1]) == TokenCount(segs[..s]) + |segs[s].tokens|
  {
    assert segs[..s + 1][..s] == segs[..s];
  }

  /** What one more token adds to the word utterances. */
  lemma TokenStep(toks: seq<Token>, t: nat)
    requires t < |toks|
    ensures TokenWords(toks[..t + 1]) == TokenWords(toks[..t]) + (if IsControl(toks[t].text) then [] else [WordOf(toks[t])])
  {
    assert toks[..t + 1][..t] == toks[..t];
  }

  /**
   * The token loop of `Whisper::transcribe` for one segment: it appends every
   * non-control token to `words`. `examined` counts the tokens it reads.
   */
  method CollectWords(tokens: seq<Token>, words: seq<Utterance>)
    returns (extended: seq<Utterance>, ghost examined: nat)
    ensures extended == words + TokenWords(tokens)
    ensures examined == |tokens|
  {
    extended, examined := words, 0;
    var numTokens := |tokens|;
    for t := 0 to numTokens
      invariant extended == words + TokenWords(tokens[..t])
      invariant examined == t
    {
      var tok := tokens[t];
      examined := examined + 1;
      TokenStep(tokens, t);
      if StartsWith(tok.text, "[_") {
        continue;
      }
      SeqAssoc(words, TokenWords(tokens[..t]), [WordOf(tok)]);
      extended := extended + [Utterance(tok.t0, tok.t1, tok.text)];
    }
    assert tokens[..numTokens] == tokens;
  }

  /**
   * The collection loop of `Whisper::transcribe` over the engine's result.
   * `examined` counts the tokens the loop reads: all of them with word
   * timestamps, none without.
   */
  method Transcribe(segments: seq<Segment>, wordTimestamps: bool)
    returns (r: Result<Transcript, TranscribeError>, ghost examined: nat)
    ensures r == Transcription(segments, wordTimestamps)
    ensures examined == if wordTimestamps then TokenCount(segments) else 0
  {
    examined := 0;
    var numSegments := |segments|;
    if numSegments == 0 {
      return Err(NoSegments), examined;
    }
    var words: seq<Utterance> := [];
    var utterances: seq<Utterance> := [];
    for s := 0 to numSegments
      invariant utterances == SegmentUtterances(segments[..s])
      invariant words == if wordTimestamps then WordUtterances(segments[..s]) else []
      invariant examined == if wordTimestamps then TokenCount(segments[..s]) else 0
    {
      var seg := segments[s];
      SegmentStep(segments, s);
      utterances := utterances + [Utterance(seg.t0, seg.t1, seg.text)];
      if !wordTimestamps {
        continue;
      }
      ghost var count;
      words, count := CollectWords(seg.tokens, words);
      examined := examined + count;
    }
    assert segments[..numSegments] == segments;
    r := Ok(Transcript(utterances, if wordTimestamps then Some(words) else None));
  }

  // ---------------------------------------------------------------------
  // Properties of the word filter

  lemma {:induction false} TokenWordsAppend(a: seq<Token>, b: seq<Token>)
    ensures TokenWords(a + b) == TokenWords(a) + TokenWords(b)
    decreases |b|
  {
    if b == [] {
      assert a + b == a;
    } else {
      assert (a + b)[..|a + b| - 1] == a + b[..|b| - 1];
      TokenWordsAppend(a, b[..|b| - 1]);
    }
  }

  /** Every token of every segment, in segment-then-token order. */
  function AllTokens(segs: seq<Segment>): (toks: seq<Token>)
    ensures |toks| == TokenCount(segs)
  {
    if segs == [] then [] else AllTokens(segs[..|segs| - 1]) + segs[|segs| - 1].tokens
  }

  /** The word utterances are the filter applied to the flattened token stream. */
  lemma {:induction false} WordUtterancesAreFilteredTokens(segs: seq<Segment>)
    ensures WordUtterances(segs) == TokenWords(AllTokens(segs))
  {
    if segs != [] {
      WordUtterancesAreFilteredTokens(segs[..|segs| - 1]);
      TokenWordsAppend(AllTokens(segs[..|segs| - 1]), segs[|segs| - 1].tokens);
    }
  }

  /** The positions of the non-control tokens, in increasing order. */
  function KeptIndices(toks: seq<Token>): (ks: seq<nat>)
    ensures forall j :: 0 <= j < |ks| ==> ks[j] < |toks|
    ensures forall j, k :: 0 <= j < k < |ks| ==> ks[j] < ks[k]
    ensures forall i :: 0 <= i < |toks| ==> (i in ks <==> !IsControl(toks[i].text))
  {
    if toks == [] then []
    else
      var n := |toks| - 1;
      KeptIndices(toks[..n]) + (if IsControl(toks[n].text) then [] else [n])
  }

  /**
   * The word filter keeps exactly the non-control tokens, in their order, each
   * with its own text and timestamps.
   */
  lemma {:induction false} TokenWordsAreKeptTokens(toks: seq<Token>)
    ensures |TokenWords(toks)| == |KeptIndices(toks)|
    ensures forall j :: 0 <= j < |TokenWords(toks)| ==> TokenWords(toks)[j] == WordOf(toks[KeptIndices(toks)[j]])
  {
    if toks != [] {
      TokenWordsAreKeptTokens(toks[..|toks| - 1]);
    }
  }
}
