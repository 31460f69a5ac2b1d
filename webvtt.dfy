/** The SRT to WebVTT converter of api/apps/utils.py.

    The input is trimmed, cut into blocks at every blank line ("\n\n"), and
    each block of at least two lines becomes one WebVTT cue: its timing line
    with every ',' turned into '.', then its text lines as they are, then an
    empty line.  Blocks of fewer than two lines are skipped.  The result starts
    with the "WEBVTT" header line and a blank line (W3C WebVTT, section 4.1,
    file structure). */
module WebVtt {
  import opened PyStr

  const HEADER := "WEBVTT"

  /** The blocks of an SRT document: the trimmed text cut at every "\n\n". */
  function Blocks(srt: string): seq<string> {
    Split(Strip(srt), "\n\n")
  }

  /** The lines of one block. */
  function Lines(block: string): seq<string> {
    Split(block, "\n")
  }

  /** A block the converter turns into a cue. */
  predicate Kept(block: string) {
    |Lines(block)| >= 2
  }

  /** The output lines one block contributes. */
  function CueLines(block: string): seq<string> {
    var lines := Lines(block);
    if |lines| < 2 then [] else [Replace(lines[1], ',', '.')] + lines[2..] + [""]
  }

  /** The output lines of a sequence of blocks, in order. */
  function BodyLines(blocks: seq<string>): seq<string>
    decreases |blocks|
  {
    if blocks == [] then [] else CueLines(blocks[0]) + BodyLines(blocks[1..])
  }

  /** What srt_to_webvtt returns for srt. */
  function WebVttOf(srt: string): string {
    Join("\n", [HEADER, ""] + BodyLines(Blocks(srt)))
  }

  /** srt_to_webvtt: builds the list of output lines block by block, then joins
      it with newlines. */
  method SrtToWebVtt(srt: string) returns (vtt: string)
    ensures vtt == WebVttOf(srt)
  {
    var blocks := Split(Strip(srt), "\n\n");
    var vttLines := [HEADER, ""];
    for i := 0 to |blocks|
      invariant vttLines == [HEADER, ""] + BodyLines(blocks[..i])
    {
      ghost var before := vttLines;
      var lines := Split(blocks[i], "\n");
      if |lines| < 2 {
        ShortStep(blocks, i, before);
        continue;
      }
      var timeLine := Replace(lines[1], ',', '.');
      var textLines := lines[2..];
      vttLines := vttLines + [timeLine];
      vttLines := vttLines + textLines;
      vttLines := vttLines + [""];
      KeptStep(blocks, i, before, vttLines);
    }
    assert blocks[..|blocks|] == blocks;
    vtt := Join("\n", vttLines);
  }

  /** The loop invariant survives a block of fewer than two lines. */
  lemma ShortStep(blocks: seq<string>, i: nat, before: seq<string>)
    requires i < |blocks| && |Lines(blocks[i])| < 2
    requires before == [HEADER, ""] + BodyLines(blocks[..i])
    ensures before == [HEADER, ""] + BodyLines(blocks[..i + 1])
  {
    BodyLinesStep(blocks, i);
  }

  /** The loop invariant survives the three appends for a kept block. */
  lemma KeptStep(blocks: seq<string>, i: nat, before: seq<string>, after: seq<string>)
    requires i < |blocks| && |Lines(blocks[i])| >= 2
    requires before == [HEADER, ""] + BodyLines(blocks[..i])
    requires after == before + [Replace(Lines(blocks[i])[1], ',', '.')] + Lines(blocks[i])[2..] + [""]
    ensures after == [HEADER, ""] + BodyLines(blocks[..i + 1])
  {
    var lines := Lines(blocks[i]);
    BodyLinesStep(blocks, i);
    Regroup([HEADER, ""], BodyLines(blocks[..i]), [Replace(lines[1], ',', '.')], lines[2..], [""]);
  }

  // ---------------------------------------------------------------------
  // The body as a sequence of cues

  /** One WebVTT cue: its timing line and its text lines. */
  datatype Cue = Cue(timing: string, text: seq<string>)

  /** The cues the converter produces: one per kept block, in block order, with
      the index line dropped, commas in the timing line turned into periods and
      the text lines copied verbatim. */
  function CuesOf(blocks: seq<string>): seq<Cue>
    decreases |blocks|
  {
    if blocks == [] then []
    else
      var lines := Lines(blocks[0]);
      (if |lines| < 2 then [] else [Cue(Replace(lines[1], ',', '.'), lines[2..])])
      + CuesOf(blocks[1..])
  }

  /** The number of blocks with at least two lines. */
  function KeptCount(blocks: seq<string>): nat
    decreases |blocks|
  {
    if blocks == [] then 0 else (if Kept(blocks[0]) then 1 else 0) + KeptCount(blocks[1..])
  }

  /** The lines of a sequence of cues in WebVTT: timing, text, blank line. */
  function RenderCues(cs: seq<Cue>): seq<string>
    decreases |cs|
  {
    if cs == [] then [] else [cs[0].timing] + cs[0].text + [""] + RenderCues(cs[1..])
  }

  /** How many lines precede the first empty line. */
  function TextLength(lines: seq<string>): (n: nat)
    ensures n <= |lines|
    ensures forall k :: 0 <= k < n ==> lines[k] != ""
    ensures n < |lines| ==> lines[n] == ""
    decreases |lines|
  {
    if lines == [] || lines[0] == "" then 0 else 1 + TextLength(lines[1..])
  }

  /** A WebVTT reader for the cue lines after the header: a timing line, then
      text lines up to the next empty line. */
  function ParseCues(lines: seq<string>): seq<Cue>
    decreases |lines|
  {
    if lines == [] then []
    else
      var n := TextLength(lines[1..]);
      if 1 + n < |lines| then [Cue(lines[0], lines[1..1 + n])] + ParseCues(lines[2 + n..])
      else [Cue(lines[0], lines[1..])]
  }

  predicate TextNonEmpty(cs: seq<Cue>) {
    forall i, k :: 0 <= i < |cs| && 0 <= k < |cs[i].text| ==> cs[i].text[k] != ""
  }

  /** The cue count is the number of kept blocks. */
  lemma {:induction false} CuesOfCount(blocks: seq<string>)
    ensures |CuesOf(blocks)| == KeptCount(blocks)
    decreases |blocks|
  {
    if blocks != [] {
      CuesOfCount(blocks[1..]);
    }
  }

  /** The body lines are the rendering of the cues. */
  lemma {:induction false} BodyIsRenderedCues(blocks: seq<string>)
    ensures BodyLines(blocks) == RenderCues(CuesOf(blocks))
    decreases |blocks|
  {
    if blocks != [] {
      BodyIsRenderedCues(blocks[1..]);
      var lines := Lines(blocks[0]);
      var rest := CuesOf(blocks[1..]);
      if |lines| >= 2 {
        var c := Cue(Replace(lines[1], ',', '.'), lines[2..]);
        assert CuesOf(blocks) == [c] + rest;
        assert ([c] + rest)[1..] == rest;
        assert RenderCues([c] + rest) == [c.timing] + c.text + [""] + RenderCues(rest);
        assert CueLines(blocks[0]) == [c.timing] + c.text + [""];
      } else {
        assert CuesOf(blocks) == rest;
        assert CueLines(blocks[0]) == [];
      }
    }
  }

  lemma {:induction false} TextLengthOf(text: seq<string>, rest: seq<string>)
    requires forall k :: 0 <= k < |text| ==> text[k] != ""
    ensures TextLength(text + [""] + rest) == |text|
    decreases |text|
  {
    if text != [] {
      assert (text + [""] + rest)[1..] == text[1..] + [""] + rest;
      TextLengthOf(text[1..], rest);
    }
  }

  /** Reading the rendered cues back gives the cues, as long as no text line
      is empty. */
  lemma {:induction false} ParseRenderCues(cs: seq<Cue>)
    requires TextNonEmpty(cs)
    ensures ParseCues(RenderCues(cs)) == cs
    decreases |cs|
  {
    if cs != [] {
      var c := cs[0];
      var rest := RenderCues(cs[1..]);
      var lines := [c.timing] + c.text + [""] + rest;
      assert lines[1..] == c.text + [""] + rest;
      TextLengthOf(c.text, rest);
      var n := |c.text|;
      assert lines[1..1 + n] == c.text;
      assert lines[2 + n..] == rest;
      assert TextNonEmpty(cs[1..]) by {
        forall i, k | 0 <= i < |cs[1..]| && 0 <= k < |cs[1..][i].text|
          ensures cs[1..][i].text[k] != ""
        {
          assert cs[1..][i] == cs[i + 1];
        }
      }
      ParseRenderCues(cs[1..]);
    }
  }

  // ---------------------------------------------------------------------
  // Facts about "\n" and "\n\n" cuts

  /** No two consecutive newlines. */
  predicate NoBlankLine(s: string) {
    forall j :: 0 <= j < |s| - 1 ==> !(s[j] == '\n' && s[j + 1] == '\n')
  }

  predicate EndsWithNewline(s: string) {
    |s| > 0 && s[|s| - 1] == '\n'
  }

  lemma {:induction false} SplitLinesNonEmpty(s: string)
    requires NoBlankLine(s) && !EndsWithNewline(s)
    ensures forall k :: 1 <= k < |Lines(s)| ==> Lines(s)[k] != ""
    decreases |s|
  {
    if |s| >= 1 {
      var u := s[1..];
      var rest := Lines(u);
      assert NoBlankLine(u);
      assert !EndsWithNewline(u);
      SplitLinesNonEmpty(u);
      if s[..1] == "\n" {
        assert Lines(s) == [""] + rest;
        assert u != "" && u[0] != '\n' by {
          assert s[0] == '\n';
        }
        assert !StartsWith(u, "\n") by {
          assert u[..1] == [u[0]];
        }
        SplitFirstPart(u, "\n");
        forall k | 1 <= k < |Lines(s)| ensures Lines(s)[k] != "" {
          assert Lines(s)[k] == rest[k - 1];
        }
      } else {
        assert Lines(s) == [[s[0]] + rest[0]] + rest[1..];
        forall k | 1 <= k < |Lines(s)| ensures Lines(s)[k] != "" {
          assert Lines(s)[k] == rest[k];
        }
      }
    }
  }

  /** Every block of a string that does not end in a newline has no blank line
      inside and does not end in a newline. */
  lemma {:induction false} BlocksShape(s: string)
    requires !EndsWithNewline(s)
    ensures forall i :: 0 <= i < |Split(s, "\n\n")| ==>
              NoBlankLine(Split(s, "\n\n")[i]) && !EndsWithNewline(Split(s, "\n\n")[i])
    decreases |s|
  {
    var parts := Split(s, "\n\n");
    if |s| < 2 {
      assert parts == [s];
    } else if s[..2] == "\n\n" {
      BlocksShape(s[2..]);
      assert parts == [""] + Split(s[2..], "\n\n");
    } else {
      var u := s[1..];
      var rest := Split(u, "\n\n");
      BlocksShape(u);
      assert parts == [[s[0]] + rest[0]] + rest[1..];
      var p := [s[0]] + rest[0];
      SplitFirstPart(u, "\n\n");
      assert s[0] == '\n' ==> u[0] != '\n' by {
        assert s[..2] == [s[0], u[0]];
      }
      if rest[0] == "" {
        if u != "" {
          assert StartsWith(u, "\n\n");
          assert u[0] == '\n';
        }
        assert p == [s[0]];
      } else {
        assert p[1..] == rest[0];
        assert p[1] == u[0];
        assert NoBlankLine(rest[0]);
      }
      assert NoBlankLine(p) && !EndsWithNewline(p);
      assert forall i :: 1 <= i < |parts| ==> parts[i] == rest[i];
    }
  }

  /** Every text line of every cue the converter produces is non-empty. */
  lemma {:induction false} CueTextsNonEmpty(srt: string)
    ensures TextNonEmpty(CuesOf(Blocks(srt)))
  {
    var t := Strip(srt);
    assert !EndsWithNewline(t);
    BlocksShape(t);
    CueTextsNonEmptyFrom(Blocks(srt));
  }

  lemma {:induction false} CueTextsNonEmptyFrom(blocks: seq<string>)
    requires forall i :: 0 <= i < |blocks| ==> NoBlankLine(blocks[i]) && !EndsWithNewline(blocks[i])
    ensures TextNonEmpty(CuesOf(blocks))
    decreases |blocks|
  {
    if blocks != [] {
      CueTextsNonEmptyFrom(blocks[1..]);
      SplitLinesNonEmpty(blocks[0]);
      var lines := Lines(blocks[0]);
      var head := if |lines| < 2 then [] else [Cue(Replace(lines[1], ',', '.'), lines[2..])];
      var cs := CuesOf(blocks);
      assert cs == head + CuesOf(blocks[1..]);
      forall i, k | 0 <= i < |cs| && 0 <= k < |cs[i].text| ensures cs[i].text[k] != "" {
        if i < |head| {
          assert cs[i].text[k] == lines[k + 2];
        } else {
          assert cs[i] == CuesOf(blocks[1..])[i - |head|];
        }
      }
    }
  }

  // ---------------------------------------------------------------------
  // Joining and cutting lines

  predicate NoNewlineIn(xs: seq<string>) {
    forall i :: 0 <= i < |xs| ==> '\n' !in xs[i]
  }

  /** No part of a cut at "\n" contains a newline. */
  lemma {:induction false} LinesHaveNoNewline(s: string)
    ensures NoNewlineIn(Lines(s))
    decreases |s|
  {
    if |s| >= 1 {
      LinesHaveNoNewline(s[1..]);
      var rest := Split(s[1..], "\n");
      if s[..1] != "\n" {
        assert s[0] != '\n' by { assert s[..1] == [s[0]]; }
        assert Lines(s) == [[s[0]] + rest[0]] + rest[1..];
      }
    }
  }

  lemma {:induction false} RenderedNoNewline(cs: seq<Cue>)
    requires forall i :: 0 <= i < |cs| ==> '\n' !in cs[i].timing && NoNewlineIn(cs[i].text)
    ensures NoNewlineIn(RenderCues(cs))
    decreases |cs|
  {
    if cs != [] {
      RenderedNoNewline(cs[1..]);
      var c := cs[0];
      var r := RenderCues(cs[1..]);
      var all := [c.timing] + c.text + [""] + r;
      assert RenderCues(cs) == all;
      forall i | 0 <= i < |all| ensures '\n' !in all[i] {
        if i == 0 {
        } else if i <= |c.text| {
          assert all[i] == c.text[i - 1];
        } else if i == |c.text| + 1 {
        } else {
          assert all[i] == r[i - |c.text| - 2];
        }
      }
    }
  }

  lemma {:induction false} CuesHaveNoNewline(blocks: seq<string>)
    ensures forall i :: 0 <= i < |CuesOf(blocks)| ==>
              '\n' !in CuesOf(blocks)[i].timing && NoNewlineIn(CuesOf(blocks)[i].text)
    decreases |blocks|
  {
    if blocks != [] {
      CuesHaveNoNewline(blocks[1..]);
      var lines := Lines(blocks[0]);
      LinesHaveNoNewline(blocks[0]);
      if |lines| >= 2 {
        var t := Replace(lines[1], ',', '.');
        assert '\n' !in lines[1];
        assert forall k :: 0 <= k < |t| ==> t[k] != '\n';
      }
    }
  }

  /** The lines of the output are the header, a blank line and the rendered
      cues. */
  lemma {:induction false} OutputLines(srt: string)
    ensures Split(WebVttOf(srt), "\n") == [HEADER, ""] + RenderCues(CuesOf(Blocks(srt)))
  {
    var blocks := Blocks(srt);
    var cs := CuesOf(blocks);
    BodyIsRenderedCues(blocks);
    CuesHaveNoNewline(blocks);
    RenderedNoNewline(cs);
    HeaderLinesJoin(RenderCues(cs));
  }

  lemma HeaderLinesJoin(body: seq<string>)
    requires NoNewlineIn(body)
    ensures Split(Join("\n", [HEADER, ""] + body), "\n") == [HEADER, ""] + body
  {
    var all := [HEADER, ""] + body;
    assert NoNewlineIn(all) by {
      forall i | 0 <= i < |all| ensures '\n' !in all[i] {
        if i >= 2 {
          assert all[i] == body[i - 2];
        }
      }
    }
    SplitJoin(all, '\n');
  }

  /** Reading the converter's output as WebVTT: its lines are the header, a
      blank line, and then exactly one cue per block of at least two lines, in
      block order, each with the block's timing line (',' turned into '.') and
      the block's text lines unchanged; the index lines are gone. */
  lemma {:induction false} ReadBack(srt: string)
    ensures var lines := Split(WebVttOf(srt), "\n");
            && |lines| >= 2 && lines[0] == HEADER && lines[1] == ""
            && ParseCues(lines[2..]) == CuesOf(Blocks(srt))
            && |ParseCues(lines[2..])| == KeptCount(Blocks(srt))
  {
    var cs := CuesOf(Blocks(srt));
    OutputLines(srt);
    var lines := Split(WebVttOf(srt), "\n");
    assert lines[2..] == RenderCues(cs);
    CueTextsNonEmpty(srt);
    ParseRenderCues(cs);
    CuesOfCount(Blocks(srt));
  }

  // ---------------------------------------------------------------------
  // Header and ending

  lemma {:induction false} BodyEmptyIffNoneKept(blocks: seq<string>)
    ensures BodyLines(blocks) == [] <==> KeptCount(blocks) == 0
    ensures BodyLines(blocks) != [] ==> |BodyLines(blocks)| >= 2 && BodyLines(blocks)[|BodyLines(blocks)| - 1] == ""
    decreases |blocks|
  {
    if blocks != [] {
      BodyEmptyIffNoneKept(blocks[1..]);
    }
  }

  lemma JoinHeaderAlone()
    ensures Join("\n", [HEADER, ""]) == "WEBVTT\n"
  {
    JoinCons("\n", HEADER, [""]);
    assert [HEADER] + [""] == [HEADER, ""];
  }

  lemma JoinHeaderBody(body: seq<string>)
    requires |body| >= 2 && body[|body| - 1] == ""
    ensures var out := Join("\n", [HEADER, ""] + body);
            StartsWith(out, "WEBVTT\n\n") && StartsWith(out, "WEBVTT\n") && out[|out| - 1] == '\n'
  {
    var out := Join("\n", [HEADER, ""] + body);
    assert [HEADER, ""] + body == [HEADER] + ([""] + body);
    JoinCons("\n", HEADER, [""] + body);
    JoinCons("\n", "", body);
    var x := Join("\n", body);
    assert out == "WEBVTT" + "\n" + ("" + "\n" + x);
    assert out == "WEBVTT\n\n" + x;
    assert out[..8] == "WEBVTT\n\n";
    assert out[..7] == "WEBVTT\n";
    var init := body[..|body| - 1];
    assert body == init + [""];
    JoinAppend("\n", init, [""]);
    assert x == Join("\n", init) + "\n" + "";
    assert x[|x| - 1] == '\n';
  }

  /** The output always starts with the header line; with no cue it is exactly
      the header and a newline, otherwise the header is followed by a blank
      line and the output ends with a newline. */
  lemma HeaderAndEnding(srt: string)
    ensures StartsWith(WebVttOf(srt), "WEBVTT\n")
    ensures KeptCount(Blocks(srt)) == 0 ==> WebVttOf(srt) == "WEBVTT\n"
    ensures KeptCount(Blocks(srt)) > 0 ==>
              StartsWith(WebVttOf(srt), "WEBVTT\n\n") && WebVttOf(srt)[|WebVttOf(srt)| - 1] == '\n'
  {
    var body := BodyLines(Blocks(srt));
    BodyEmptyIffNoneKept(Blocks(srt));
    if body == [] {
      assert [HEADER, ""] + body == [HEADER, ""];
      JoinHeaderAlone();
      assert "WEBVTT\n"[..7] == "WEBVTT\n";
    } else {
      JoinHeaderBody(body);
    }
  }

  // ---------------------------------------------------------------------
  // Blocks with fewer than two lines

  lemma {:induction false} BodyLinesAppend(xs: seq<string>, ys: seq<string>)
    ensures BodyLines(xs + ys) == BodyLines(xs) + BodyLines(ys)
    decreases |xs|
  {
    if xs == [] {
      assert xs + ys == ys;
    } else {
      BodyLinesAppend(xs[1..], ys);
      assert (xs + ys)[1..] == xs[1..] + ys;
      assert (xs + ys)[0] == xs[0];
      AppendAssoc(CueLines(xs[0]), BodyLines(xs[1..]), BodyLines(ys));
    }
  }

  lemma {:induction false} BodyLinesSnoc(xs: seq<string>, b: string)
    ensures BodyLines(xs + [b]) == BodyLines(xs) + CueLines(b)
  {
    BodyLinesAppend(xs, [b]);
    assert BodyLines([b]) == CueLines(b) + BodyLines([]);
  }

  lemma {:induction false} ShortBlockFirst(b: string, ys: seq<string>)
    requires !Kept(b)
    ensures BodyLines([b] + ys) == BodyLines(ys)
  {
    assert CueLines(b) == [];
    assert ([b] + ys)[1..] == ys;
  }

  lemma {:induction false} BodyLinesWithPrefix(xs: seq<string>, b: string, ys: seq<string>)
    requires BodyLines([b] + ys) == BodyLines(ys)
    ensures BodyLines(xs + ([b] + ys)) == BodyLines(xs + ys)
  {
    BodyLinesAppend(xs, [b] + ys);
    BodyLinesAppend(xs, ys);
  }

  /** One more block adds its cue lines, or nothing when it is short. */
  lemma {:induction false} BodyLinesStep(blocks: seq<string>, i: nat)
    requires i < |blocks|
    ensures var lines := Split(blocks[i], "\n");
            && (|lines| < 2 ==> BodyLines(blocks[..i + 1]) == BodyLines(blocks[..i]))
            && (|lines| >= 2 ==> BodyLines(blocks[..i + 1])
                                 == BodyLines(blocks[..i]) + ([Replace(lines[1], ',', '.')] + lines[2..] + [""]))
  {
    BodyLinesSnoc(blocks[..i], blocks[i]);
    assert blocks[..i + 1] == blocks[..i] + [blocks[i]];
  }

  lemma Regroup<T>(h: seq<T>, a: seq<T>, b: seq<T>, c: seq<T>, d: seq<T>)
    ensures (h + a) + b + c + d == h + (a + (b + c + d))
  {
  }

  /** A block of fewer than two lines contributes nothing: removing it leaves
      the lines of the other blocks as they were. */
  lemma {:induction false} ShortBlockInert(blocks: seq<string>, i: nat)
    requires i < |blocks| && !Kept(blocks[i])
    ensures BodyLines(blocks[..i] + blocks[i + 1..]) == BodyLines(blocks)
  {
    var xs, b, ys := blocks[..i], blocks[i], blocks[i + 1..];
    assert blocks == xs + ([b] + ys);
    ShortBlockFirst(b, ys);
    BodyLinesWithPrefix(xs, b, ys);
  }

  /** The index line plays no part: two blocks that agree from their second
      line on give the same output lines. */
  lemma {:induction false} IndexLineIgnored(b1: string, b2: string)
    requires |Lines(b1)| == |Lines(b2)| && Lines(b1)[1..] == Lines(b2)[1..]
    ensures CueLines(b1) == CueLines(b2)
  {
    if |Lines(b1)| >= 2 {
      assert Lines(b1)[1] == Lines(b1)[1..][0];
      assert Lines(b1)[2..] == Lines(b1)[1..][1..];
      assert Lines(b2)[2..] == Lines(b2)[1..][1..];
    }
  }
}
