/**
 * A reader for the LRC text that `Transcript::as_lrc` writes: it splits the
 * text into lines and reads each two-line block back into an utterance. It is
 * the reference against which the formatter is proved lossless: for
 * non-negative timestamps and single-line texts, reading the rendered text
 * gives back exactly the utterances that were rendered, in order.
 *
 * Several helper lemmas below are stated over plain strings rather than over
 * stamps, so that their proofs need not unfold how a stamp is printed.
 */
module LrcRead {
  import opened Wrappers
  import opened Format
  import opened Whisper

  // ---------------------------------------------------------------------
  // Lines

  /** The position of the first `c` in `s`, or `|s|` when there is none. */
  function IndexOf(s: string, c: char): (k: nat)
    ensures k <= |s|
    ensures k < |s| ==> s[k] == c
    ensures forall i :: 0 <= i < k ==> s[i] != c
  {
    if s == [] then 0 else if s[0] == c then 0 else 1 + IndexOf(s[1..], c)
  }

  /** The newline-terminated lines of `s`; a final line without a newline counts too. */
  function Lines(s: string): (ls: seq<string>)
    ensures forall i :: 0 <= i < |ls| ==> '\n' !in ls[i]
    decreases |s|
  {
    if s == [] then []
    else
      var k := IndexOf(s, '\n');
      if k == |s| then [s] else [s[..k]] + Lines(s[k + 1..])
  }

  /** A line and its newline in front of any text. */
  lemma LinesCons(line: string, r: string)
    requires '\n' !in line
    ensures Lines(line + "\n" + r) == [line] + Lines(r)
  {
    var s := line + "\n" + r;
    var k := IndexOf(s, '\n');
    assert s[|line|] == '\n';
    assert k == |line| by {
      assert forall i :: 0 <= i < |line| ==> s[i] == line[i];
    }
    assert s[..k] == line;
    assert s[k + 1..] == r;
  }

  /** After a newline-terminated text, the lines of what follows come unchanged. */
  lemma {:induction false} LinesAppend(a: string, b: string)
    requires a == [] || a[|a| - 1] == '\n'
    ensures Lines(a + b) == Lines(a) + Lines(b)
    decreases |a|
  {
    if a == [] {
      assert a + b == b;
    } else {
      var k := IndexOf(a, '\n');
      assert k < |a|;
      var line, rest := a[..k], a[k + 1..];
      assert '\n' !in line by {
        forall i | 0 <= i < |line| ensures line[i] != '\n' {
          assert line[i] == a[i];
        }
      }
      assert a == line + "\n" + rest && a + b == line + "\n" + (rest + b);
      LinesCons(line, rest);
      LinesCons(line, rest + b);
      assert rest == [] || rest[|rest| - 1] == '\n';
      LinesAppend(rest, b);
      SeqAssoc([line], Lines(rest), Lines(b));
    }
  }

  lemma LinesOfLine(l: string)
    requires '\n' !in l
    ensures Lines(l + "\n") == [l]
  {
    var s := l + "\n";
    assert IndexOf(s, '\n') == |l| by {
      assert s[|l|] == '\n';
      assert forall i :: 0 <= i < |l| ==> s[i] == l[i];
    }
    assert s[..|l|] == l;
    assert s[|l| + 1..] == [];
  }

  /** Two newline-terminated lines in front of any text. */
  lemma LinesOfTwo(x: string, y: string, rest: string)
    requires '\n' !in x && '\n' !in y
    ensures Lines(x + "\n" + y + "\n" + rest) == [x, y] + Lines(rest)
  {
    assert x + "\n" + y + "\n" + rest == (x + "\n") + ((y + "\n") + rest);
    LinesAppend(x + "\n", (y + "\n") + rest);
    LinesAppend(y + "\n", rest);
    LinesOfLine(x);
    LinesOfLine(y);
    SeqAssoc([x], [y], Lines(rest));
  }

  lemma NoNewlineIn(x: string, y: string)
    requires '\n' !in x && '\n' !in y
    ensures '\n' !in x + y
  {
    forall i | 0 <= i < |x + y| ensures (x + y)[i] != '\n' {
      if i >= |x| {
        assert (x + y)[i] == y[i - |x|];
      }
    }
  }

  // ---------------------------------------------------------------------
  // The characters of a stamp

  predicate StampChar(c: char) {
    IsDigit(c) || c in ":.-"
  }

  lemma PadChars(n: int)
    ensures forall i :: 0 <= i < |Pad2(n)| ==> IsDigit(Pad2(n)[i]) || Pad2(n)[i] == '-'
  {
    var p := Pad2(n);
    if n < 0 {
      forall i | 1 <= i < |p| ensures IsDigit(p[i]) {
        assert p[i] == p[1..][i - 1];
      }
    }
  }

  lemma FieldsChars(m: string, s: string, c: string)
    requires forall i :: 0 <= i < |m| ==> IsDigit(m[i]) || m[i] == '-'
    requires forall i :: 0 <= i < |s| ==> IsDigit(s[i]) || s[i] == '-'
    requires forall i :: 0 <= i < |c| ==> IsDigit(c[i]) || c[i] == '-'
    ensures forall i :: 0 <= i < |m + ":" + s + "." + c| ==> StampChar((m + ":" + s + "." + c)[i])
  {
    var st := m + ":" + s + "." + c;
    forall i | 0 <= i < |st| ensures StampChar(st[i]) {
      if i < |m| {
        assert st[i] == m[i];
      } else if i == |m| {
      } else if i < |m| + 1 + |s| {
        assert st[i] == s[i - |m| - 1];
      } else if i == |m| + 1 + |s| {
      } else {
        assert st[i] == c[i - |m| - 2 - |s|];
      }
    }
  }

  /** A stamp consists of digits, `:`, `.` and `-` only. */
  lemma StampChars(t: int)
    ensures forall i :: 0 <= i < |Stamp(t)| ==> StampChar(Stamp(t)[i])
  {
    var c := ClockOf(t);
    PadChars(c.minutes);
    PadChars(c.seconds);
    PadChars(c.centis);
    FieldsChars(Pad2(c.minutes), Pad2(c.seconds), Pad2(c.centis));
  }

  lemma BracketChars(st: string)
    requires forall i :: 0 <= i < |st| ==> StampChar(st[i])
    ensures '\n' !in "[" + st + "]"
  {
    var tag := "[" + st + "]";
    forall i | 0 <= i < |tag| ensures tag[i] != '\n' {
      if 1 <= i <= |st| {
        assert tag[i] == st[i - 1];
      }
    }
  }

  /** A tag holds no newline. */
  lemma TagChars(t: int)
    ensures '\n' !in Tag(t)
  {
    StampChars(t);
    BracketChars(Stamp(t));
  }

  // ---------------------------------------------------------------------
  // The lines of a block

  /** The two lines of one block: the start tag with the text, then the end tag. */
  function BlockLines(u: Utterance): seq<string> {
    [Tag(u.start as int) + u.text, Tag(u.end as int)]
  }

  /** A block followed by any text splits into the block's two lines, then that text's lines. */
  lemma LinesOfBlockThen(u: Utterance, rest: string)
    requires '\n' !in u.text
    ensures Lines(Block(u) + rest) == BlockLines(u) + Lines(rest)
  {
    TagChars(u.start as int);
    TagChars(u.end as int);
    NoNewlineIn(Tag(u.start as int), u.text);
    LinesOfTwo(Tag(u.start as int) + u.text, Tag(u.end as int), rest);
  }

  /** Each block is exactly two lines: `[start]text`, then `[end]`. */
  lemma LinesOfBlock(u: Utterance)
    requires '\n' !in u.text
    ensures Lines(Block(u)) == BlockLines(u)
  {
    LinesOfBlockThen(u, "");
    SeqEmptyRight(Block(u));
    assert BlockLines(u) + [] == BlockLines(u);
  }

  // ---------------------------------------------------------------------
  // Reading back

  /** Reads `mm:ss.cc` (a minute field of any width, two-digit seconds and centiseconds). */
  function ParseStamp(s: string): Option<int> {
    if |s| < 7 then None
    else
      var n := |s|;
      var m, sec, cs := s[..n - 6], s[n - 5..n - 3], s[n - 2..];
      if s[n - 6] == ':' && s[n - 3] == '.' && AllDigits(m) && AllDigits(sec) && AllDigits(cs)
      then Some(DecimalValue(m) * 6000 + DecimalValue(sec) * 100 + DecimalValue(cs))
      else None
  }

  /** Reads a leading `[stamp]` tag and returns its time and the rest of the line. */
  function ParseTag(line: string): Option<(int, string)> {
    if |line| == 0 || line[0] != '[' then None
    else
      var k := IndexOf(line[1..], ']');
      if k == |line| - 1 then None
      else
        match ParseStamp(line[1..k + 1])
        case None => None
        case Some(t) => Some((t, line[k + 2..]))
  }

  /** Reads pairs of lines back into utterances. */
  function DecodeLines(lines: seq<string>): Option<seq<Utterance>>
    decreases |lines|
  {
    if lines == [] then Some([])
    else if |lines| == 1 then None
    else
      match (ParseTag(lines[0]), ParseTag(lines[1]))
      case (Some((t0, text)), Some((t1, rest))) =>
        if rest == [] && InI64(t0) && InI64(t1) then
          match DecodeLines(lines[2..])
          case Some(us) => Some([Utterance(t0 as i64, t1 as i64, text)] + us)
          case None => None
        else None
      case _ => None
  }

  /** Reads an LRC text back into the utterances it lists. */
  function DecodeLrc(s: string): Option<seq<Utterance>> {
    DecodeLines(Lines(s))
  }

  /** Reading a text whose three fields sit where `mm:ss.cc` puts them. */
  lemma ParseFields(st: string, m: string, s: string, c: string)
    requires |st| >= 7
    requires st[|st| - 6] == ':' && st[|st| - 3] == '.'
    requires st[..|st| - 6] == m && st[|st| - 5..|st| - 3] == s && st[|st| - 2..] == c
    requires AllDigits(m) && AllDigits(s) && AllDigits(c)
    ensures ParseStamp(st) == Some(DecimalValue(m) * 6000 + DecimalValue(s) * 100 + DecimalValue(c))
  {
  }

  /** Where the fields of `m:s.c` sit, for two-character `s` and `c`. */
  lemma FieldsSplit(m: string, s: string, c: string)
    requires |s| == 2 && |c| == 2
    ensures var st := m + ":" + s + "." + c;
      |st| == |m| + 6 && st[|st| - 6] == ':' && st[|st| - 3] == '.' &&
      st[..|st| - 6] == m && st[|st| - 5..|st| - 3] == s && st[|st| - 2..] == c
  {
    var st := m + ":" + s + "." + c;
    assert st[..|st| - 6] == m;
    assert st[|st| - 5..|st| - 3] == s;
    assert st[|st| - 2..] == c;
  }

  /** Reading three digit fields joined as `m:s.c`, the last two two digits wide. */
  lemma FieldsRoundTrip(m: string, s: string, c: string)
    requires AllDigits(m) && AllDigits(s) && AllDigits(c)
    requires |m| >= 2 && |s| == 2 && |c| == 2
    ensures ParseStamp(m + ":" + s + "." + c) == Some(DecimalValue(m) * 6000 + DecimalValue(s) * 100 + DecimalValue(c))
  {
    FieldsSplit(m, s, c);
    ParseFields(m + ":" + s + "." + c, m, s, c);
  }

  /** For a non-negative time the stamp reads back as that time. */
  lemma StampRoundTrip(t: int)
    requires t >= 0
    ensures ParseStamp(Stamp(t)) == Some(t)
  {
    var c := ClockOf(t);
    FieldsRoundTrip(Pad2(c.minutes), Pad2(c.seconds), Pad2(c.centis));
  }

  /** Reading `[st]text` for a stamp `st` that holds no `]`. */
  lemma BracketRoundTrip(st: string, t: int, text: string)
    requires forall i :: 0 <= i < |st| ==> StampChar(st[i])
    requires ParseStamp(st) == Some(t)
    ensures ParseTag("[" + st + "]" + text) == Some((t, text))
  {
    var line := "[" + st + "]" + text;
    var rest := line[1..];
    assert rest == st + "]" + text;
    assert IndexOf(rest, ']') == |st| by {
      assert rest[|st|] == ']';
      assert forall i :: 0 <= i < |st| ==> rest[i] == st[i];
    }
    assert line[1..|st| + 1] == st;
    assert line[|st| + 2..] == text;
  }

  /** A tag followed by any text reads back as the tag's time and that text. */
  lemma TagRoundTrip(t: int, text: string)
    requires t >= 0
    ensures ParseTag(Tag(t) + text) == Some((t, text))
  {
    StampChars(t);
    StampRoundTrip(t);
    BracketRoundTrip(Stamp(t), t, text);
  }

  /** Both lines of a block read back: the start with the text, then the end alone. */
  lemma BlockRoundTrip(u: Utterance)
    requires u.start >= 0 && u.end >= 0
    ensures ParseTag(BlockLines(u)[0]) == Some((u.start as int, u.text))
    ensures ParseTag(BlockLines(u)[1]) == Some((u.end as int, ""))
  {
    TagRoundTrip(u.start as int, u.text);
    TagRoundTrip(u.end as int, "");
    SeqEmptyRight(Tag(u.end as int));
  }

  /** One step of `DecodeLines`, over a pair of lines whose tags are already read. */
  lemma DecodePair(pair: seq<string>, rest: seq<string>, u: Utterance, us: seq<Utterance>)
    requires |pair| == 2
    requires ParseTag(pair[0]) == Some((u.start as int, u.text))
    requires ParseTag(pair[1]) == Some((u.end as int, ""))
    requires DecodeLines(rest) == Some(us)
    ensures DecodeLines(pair + rest) == Some([u] + us)
  {
    var lines := pair + rest;
    assert lines[0] == pair[0] && lines[1] == pair[1] && lines[2..] == rest;
  }

  /** One block in front of an LRC text that reads back: the whole reads back too. */
  lemma ConsStep(whole: string, block: string, tail: string, pair: seq<string>, u: Utterance, us: seq<Utterance>)
    requires whole == block + tail
    requires Lines(block + tail) == pair + Lines(tail)
    requires |pair| == 2
    requires ParseTag(pair[0]) == Some((u.start as int, u.text))
    requires ParseTag(pair[1]) == Some((u.end as int, ""))
    requires DecodeLrc(tail) == Some(us) && |Lines(tail)| == 2 * |us|
    ensures DecodeLrc(whole) == Some([u] + us) && |Lines(whole)| == 2 * (|us| + 1)
  {
    DecodePair(pair, Lines(tail), u, us);
  }

  // ---------------------------------------------------------------------
  // The round trip

  /** The utterances `as_lrc` can render without loss. */
  predicate Renderable(us: seq<Utterance>) {
    forall i :: 0 <= i < |us| ==> us[i].start >= 0 && us[i].end >= 0 && '\n' !in us[i].text
  }

  /**
   * The LRC formatter is lossless: its output has two lines per utterance, and
   * reading it gives back its input, in order.
   */
  lemma {:induction false} LrcRoundTrip(us: seq<Utterance>)
    requires Renderable(us)
    ensures DecodeLrc(Lrc(us)) == Some(us)
    ensures |Lines(Lrc(us))| == 2 * |us|
  {
    if us != [] {
      var u, rest := us[0], us[1..];
      assert us == [u] + rest;
      assert Renderable(rest) by {
        forall i | 0 <= i < |rest| ensures rest[i] == us[i + 1] { }
      }
      LrcRoundTrip(rest);
      assert DecodeLrc(Lrc(us)) == Some([u] + rest) && |Lines(Lrc(us))| == 2 * (|rest| + 1) by {
        LrcFront(us);
        LinesOfBlockThen(u, Lrc(rest));
        BlockRoundTrip(u);
        ConsStep(Lrc(us), Block(u), Lrc(rest), BlockLines(u), u, rest);
      }
    }
  }

  /**
   * `as_lrc` writes two lines per rendered utterance, and its text reads back
   * as `word_utterances` when present, else as `utterances`.
   */
  lemma AsLrcRoundTrip(t: Transcript)
    requires Renderable(t.Rendered())
    ensures |Lines(t.AsLrc())| == 2 * |t.Rendered()|
    ensures t.wordUtterances.Some? ==> DecodeLrc(t.AsLrc()) == Some(t.wordUtterances.value)
    ensures t.wordUtterances.None? ==> DecodeLrc(t.AsLrc()) == Some(t.utterances)
  {
    LrcRoundTrip(t.Rendered());
  }

  // ---------------------------------------------------------------------
  // Sample stamps

  /** A stamp is its three padded fields, joined. */
  lemma StampFields(t: int, m: string, s: string, c: string)
    requires Pad2(ClockOf(t).minutes) == m && Pad2(ClockOf(t).seconds) == s && Pad2(ClockOf(t).centis) == c
    ensures Stamp(t) == m + ":" + s + "." + c
  {
  }

  /** The padded field of a non-negative number, given as a digit string of the right width. */
  lemma Pad2Is(n: int, lit: string)
    requires n >= 0 && AllDigits(lit) && DecimalValue(lit) == n && |lit| == Max(2, |Decimal(n)|)
    ensures Pad2(n) == lit
  {
    DigitsUnique(Pad2(n), lit);
  }

  lemma Pad2Of65()
    ensures Pad2(65) == "65"
  {
    assert "65"[..1] == "6" && "6"[..0] == "";
    Pad2Is(65, "65");
  }

  lemma Pad2Of100()
    ensures Pad2(100) == "100"
  {
    assert |Decimal(100)| == |Decimal(10)| + 1;
    assert "100"[..2] == "10" && "10"[..1] == "1" && "1"[..0] == "";
    Pad2Is(100, "100");
  }

  lemma Pad2OfDigit(n: int, lit: string)
    requires 0 <= n < 10 && lit == ['0', DigitChar(n)]
    ensures Pad2(n) == lit
  {
    assert lit[..1] == "0" && "0"[..0] == "";
    Pad2Is(n, lit);
  }

  /** 65 centiseconds is `00:00.65`: no minute, no second, 65 centiseconds. */
  lemma StampOf65()
    ensures Stamp(65) == "00:00.65"
  {
    assert ClockOf(65) == Clock(0, 0, 65);
    Pad2OfDigit(0, "00");
    Pad2Of65();
    StampFields(65, "00", "00", "65");
  }

  lemma StampOf6565()
    ensures Stamp(6565) == "01:05.65"
  {
    assert ClockOf(6565) == Clock(1, 5, 65);
    Pad2OfDigit(1, "01");
    Pad2OfDigit(5, "05");
    Pad2Of65();
    StampFields(6565, "01", "05", "65");
  }

  /** A hundred minutes and more print in full: `{:02}` is a minimum width. */
  lemma StampOf600001()
    ensures Stamp(600001) == "100:00.01"
  {
    assert ClockOf(600001) == Clock(100, 0, 1);
    Pad2OfDigit(0, "00");
    Pad2OfDigit(1, "01");
    Pad2Of100();
    StampFields(600001, "100", "00", "01");
  }
}
