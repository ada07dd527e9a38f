/**
  The three prompts app.py builds with f-strings: the per-chunk prompt
  (lines 96-97), the multi-chunk synthesis prompt (lines 110-116) and the
  direct synthesis prompt (lines 126-128). The metadata dictionary
  `video_data` enters as its already-rendered text.
 */
module Prompts {

  // ---------------------------------------------------------------------
  // Decimal rendering of the chunk index, as `f"{i}"` does for an int
  // ---------------------------------------------------------------------

  predicate IsDigit(c: char)
  {
    '0' <= c <= '9'
  }

  function DigitChar(d: nat): (c: char)
    requires d < 10
    ensures IsDigit(c)
  {
    "0123456789"[d]
  }

  function DigitValue(c: char): (d: nat)
    requires IsDigit(c)
    ensures d < 10
  {
    (c as int - '0' as int) as nat
  }

  /** Decimal digits of `n`, most significant first, without leading zeros. */
  function NatToString(n: nat): (s: string)
    ensures |s| > 0
    ensures forall i :: 0 <= i < |s| ==> IsDigit(s[i])
    ensures s[0] == '0' ==> n == 0
  {
    if n < 10 then [DigitChar(n)] else NatToString(n / 10) + [DigitChar(n % 10)]
  }

  function ParseDecimal(s: string): nat
    requires forall i :: 0 <= i < |s| ==> IsDigit(s[i])
  {
    if |s| == 0 then 0 else 10 * ParseDecimal(s[..|s| - 1]) + DigitValue(s[|s| - 1])
  }

  /** The rendered index reads back as the same number. */
  lemma {:induction false} NatToStringRoundTrip(n: nat)
    ensures ParseDecimal(NatToString(n)) == n
  {
    var s := NatToString(n);
    if n < 10 {
      assert s[..0] == [];
    } else {
      NatToStringRoundTrip(n / 10);
      assert s[..|s| - 1] == NatToString(n / 10);
    }
  }

  /** Distinct indices render differently, so chunk headers never collide. */
  lemma NatToStringInjective(m: nat, n: nat)
    ensures NatToString(m) == NatToString(n) ==> m == n
  {
    NatToStringRoundTrip(m);
    NatToStringRoundTrip(n);
  }

  // ---------------------------------------------------------------------
  // Prompt shapes
  // ---------------------------------------------------------------------

  const ChunkPreamble := "Video data: "
  const Blank := "\n\n"

  /** Per-chunk prompt, app.py lines 96-97: it opens with the metadata
      block, closes with a blank line, and keeps the chunk text whole and
      recoverable between the two. */
  function ChunkPrompt(videoData: string, chunk: string): (prompt: string)
    ensures |prompt| >= |ChunkPreamble + videoData + Blank| + |Blank|
    ensures ChunkOfPrompt(videoData, prompt) == chunk
  {
    var head := ChunkPreamble + videoData + Blank;
    assert (head + chunk + Blank)[|head| .. |head| + |chunk|] == chunk;
    head + chunk + Blank
  }

  /** The whole shape of the per-chunk prompt: metadata block first, the
      chunk text whole after it, and the blank line last. */
  lemma ChunkPromptShape(videoData: string, chunk: string)
    ensures ChunkPreamble + videoData + Blank <= ChunkPrompt(videoData, chunk)
    ensures ChunkOfPrompt(videoData, ChunkPrompt(videoData, chunk)) == chunk
    ensures ChunkPrompt(videoData, chunk)[|ChunkPrompt(videoData, chunk)| - |Blank|..] == Blank
  {
  }

  /** Reads the chunk text back out of a per-chunk prompt, given the
      metadata text it was built with. */
  function ChunkOfPrompt(videoData: string, prompt: string): string
    requires |prompt| >= |ChunkPreamble + videoData + Blank| + |Blank|
  {
    prompt[|ChunkPreamble + videoData + Blank| .. |prompt| - |Blank|]
  }

  /** The block both synthesis prompts open with, app.py lines 110-111 and
      126-127. */
  function VideoHeader(url: string, videoData: string): string
  {
    "Video URL: " + url + Blank + "Video Data: " + videoData + Blank
  }

  const CaptionsLabel := "Captions: "
  const SummariesLabel := "Chunk summaries:\n\n"
  const Separator := "---\n\n"

  /** Direct synthesis prompt over the raw captions, app.py lines 126-128:
      it opens with the URL and metadata block and the `Captions: ` label,
      closes with a blank line, and carries the captions verbatim,
      whitespace included, between the two. */
  function DirectPrompt(url: string, videoData: string, captions: string): (prompt: string)
    ensures |prompt| >= |VideoHeader(url, videoData) + CaptionsLabel| + |Blank|
    ensures CaptionsOfPrompt(url, videoData, prompt) == captions
  {
    var head := VideoHeader(url, videoData) + CaptionsLabel;
    assert (head + captions + Blank)[|head| .. |head| + |captions|] == captions;
    head + captions + Blank
  }

  /** The whole shape of the direct prompt: URL and metadata block and the
      `Captions: ` label first, the captions verbatim after them, and the
      blank line last. */
  lemma DirectPromptShape(url: string, videoData: string, captions: string)
    ensures VideoHeader(url, videoData) + CaptionsLabel <= DirectPrompt(url, videoData, captions)
    ensures CaptionsOfPrompt(url, videoData, DirectPrompt(url, videoData, captions)) == captions
    ensures DirectPrompt(url, videoData, captions)[|DirectPrompt(url, videoData, captions)| - |Blank|..] == Blank
  {
  }

  /** Reads the raw captions back out of a direct prompt. */
  function CaptionsOfPrompt(url: string, videoData: string, prompt: string): string
    requires |prompt| >= |VideoHeader(url, videoData) + CaptionsLabel| + |Blank|
  {
    prompt[|VideoHeader(url, videoData) + CaptionsLabel| .. |prompt| - |Blank|]
  }

  /** The `Chunk i:` header line of a section and the separator closing it. */
  function SectionHead(index: nat): string
  {
    "Chunk " + NatToString(index) + ":" + Blank
  }

  const SectionTail := Blank + Separator

  /** One chunk-summary section, app.py lines 115-116, with 1-based `index`. */
  function Section(index: nat, summary: string): string
  {
    SectionHead(index) + summary + SectionTail
  }

  /** Reads the summary back out of a section with the given index. */
  function SummaryOfSection(index: nat, section: string): string
    requires |section| >= |SectionHead(index)| + |SectionTail|
  {
    section[|SectionHead(index)| .. |section| - |SectionTail|]
  }

  /** A section opens with its `Chunk i:` header, closes with the `---`
      separator, and the summary between them can be read back whole. */
  lemma SectionRoundTrip(index: nat, summary: string)
    ensures SectionHead(index) <= Section(index, summary)
    ensures |Section(index, summary)| >= |SectionHead(index)| + |SectionTail|
    ensures SummaryOfSection(index, Section(index, summary)) == summary
    ensures Section(index, summary)[|Section(index, summary)| - |SectionTail|..] == SectionTail
  {
  }

  /** The sections for `summaries`, numbered from `first` upwards. */
  function Sections(summaries: seq<string>, first: nat): string
  {
    if |summaries| == 0 then ""
    else Section(first, summaries[0]) + Sections(summaries[1..], first + 1)
  }

  /** Multi-chunk synthesis prompt, app.py lines 110-116: the URL and
      metadata block and the `Chunk summaries:` label, then the numbered
      sections; with at least one summary it ends with the section of the
      last summary, numbered with the summary count. */
  function MultiPrompt(url: string, videoData: string, summaries: seq<string>): (prompt: string)
    ensures VideoHeader(url, videoData) + SummariesLabel <= prompt
    ensures |summaries| == 0 ==> prompt == VideoHeader(url, videoData) + SummariesLabel
    ensures |summaries| > 0 ==>
      var last := Section(|summaries|, summaries[|summaries| - 1]);
      |last| <= |prompt| && prompt[|prompt| - |last|..] == last
  {
    var head := VideoHeader(url, videoData) + SummariesLabel;
    assert |summaries| > 0 ==>
      Sections(summaries, 1)
      == Sections(summaries[..|summaries| - 1], 1) + Section(|summaries|, summaries[|summaries| - 1])
    by {
      if |summaries| > 0 {
        LastSection(summaries, 1);
      }
    }
    head + Sections(summaries, 1)
  }

  /** The sections of a non-empty list end with the last summary's section. */
  lemma LastSection(summaries: seq<string>, first: nat)
    requires |summaries| > 0
    ensures Sections(summaries, first)
            == Sections(summaries[..|summaries| - 1], first)
               + Section(first + |summaries| - 1, summaries[|summaries| - 1])
  {
    var n := |summaries|;
    assert summaries == summaries[..n - 1] + [summaries[n - 1]];
    SectionsAppend(summaries[..n - 1], [summaries[n - 1]], first);
    assert Sections([summaries[n - 1]], first + n - 1)
           == Section(first + n - 1, summaries[n - 1]) + Sections([], first + n);
  }

  /** The loop of app.py lines 110-116: the header, then one numbered section
      per chunk summary appended in list order. */
  method BuildMultiPrompt(url: string, videoData: string, summaries: seq<string>) returns (prompt: string)
    ensures prompt == MultiPrompt(url, videoData, summaries)
  {
    prompt := "Video URL: " + url + "\n\n";
    prompt := prompt + "Video Data: " + videoData + "\n\n";
    prompt := prompt + "Chunk summaries:\n\n";
    assert prompt == VideoHeader(url, videoData) + SummariesLabel + Sections([], 1);
    var i := 0;
    while i < |summaries|
      invariant i <= |summaries|
      invariant prompt == VideoHeader(url, videoData) + SummariesLabel + Sections(summaries[..i], 1)
    {
      ghost var before := prompt;
      prompt := prompt + "Chunk " + NatToString(i + 1) + ":\n\n" + summaries[i] + "\n\n";
      prompt := prompt + "---\n\n";
      AppendSection(before, i + 1, summaries[i]);
      NextSection(summaries, i);
      i := i + 1;
    }
    assert summaries[..i] == summaries;
  }

  /** Sections of the first i + 1 summaries: those of the first i, then the
      section of summary i numbered i + 1. */
  lemma NextSection(summaries: seq<string>, i: nat)
    requires i < |summaries|
    ensures Sections(summaries[..i + 1], 1) == Sections(summaries[..i], 1) + Section(i + 1, summaries[i])
  {
    SectionsAppend(summaries[..i], [summaries[i]], 1);
    assert summaries[..i + 1] == summaries[..i] + [summaries[i]];
    assert Sections([summaries[i]], 1 + i) == Section(i + 1, summaries[i]) + Sections([], i + 2);
  }

  /** The two appends of one loop turn add exactly one section. */
  lemma AppendSection(p: string, index: nat, summary: string)
    ensures p + "Chunk " + NatToString(index) + ":\n\n" + summary + "\n\n" + "---\n\n"
            == p + Section(index, summary)
  {
  }

  /** Sections of a concatenation: the second list continues the numbering. */
  lemma {:induction false} SectionsAppend(a: seq<string>, b: seq<string>, first: nat)
    ensures Sections(a + b, first) == Sections(a, first) + Sections(b, first + |a|)
    decreases |a|
  {
    if |a| == 0 {
      assert a + b == b;
    } else {
      assert (a + b)[0] == a[0];
      assert (a + b)[1..] == a[1..] + b;
      SectionsAppend(a[1..], b, first + 1);
    }
  }

  /** Where summary `i` sits in the multi-chunk prompt: after the header and
      the sections of summaries 0..i-1. */
  function SectionOffset(url: string, videoData: string, summaries: seq<string>, i: nat): nat
    requires i <= |summaries|
  {
    |VideoHeader(url, videoData) + SummariesLabel| + |Sections(summaries[..i], 1)|
  }

  /** Ordering: summary `i` appears in the multi-chunk prompt as the section
      headed "Chunk i+1:", and the sections stand in increasing index order. */
  lemma SectionPlacement(url: string, videoData: string, summaries: seq<string>, i: nat)
    requires i < |summaries|
    ensures SectionOffset(url, videoData, summaries, i) + |Section(i + 1, summaries[i])|
            == SectionOffset(url, videoData, summaries, i + 1)
    ensures SectionOffset(url, videoData, summaries, i + 1) <= |MultiPrompt(url, videoData, summaries)|
    ensures MultiPrompt(url, videoData, summaries)
              [SectionOffset(url, videoData, summaries, i) .. SectionOffset(url, videoData, summaries, i + 1)]
            == Section(i + 1, summaries[i])
  {
    var head := VideoHeader(url, videoData) + SummariesLabel;
    var before, section, after := Sections(summaries[..i], 1), Section(i + 1, summaries[i]), Sections(summaries[i + 1..], i + 2);
    NextSection(summaries, i);
    SectionsSplitAt(summaries, i);
    MultiPromptLayout(url, videoData, summaries);
    Regroup(head, before, section, after);
    SliceMiddle(head + before, section, after);
  }

  /** The multi-chunk prompt is its fixed opening followed by the sections. */
  lemma MultiPromptLayout(url: string, videoData: string, summaries: seq<string>)
    ensures MultiPrompt(url, videoData, summaries) == VideoHeader(url, videoData) + SummariesLabel + Sections(summaries, 1)
  {
  }

  lemma Regroup(w: string, x: string, y: string, z: string)
    ensures w + (x + y + z) == (w + x) + y + z
  {
  }

  /** The multi-chunk prompt ends where the last section ends: with
      `SectionPlacement` and the header prefix, nothing trails the sections. */
  lemma MultiPromptEnd(url: string, videoData: string, summaries: seq<string>)
    ensures |MultiPrompt(url, videoData, summaries)| == SectionOffset(url, videoData, summaries, |summaries|)
  {
    assert summaries[..|summaries|] == summaries;
    MultiPromptLayout(url, videoData, summaries);
  }

  /** The sections split around summary `i`: those before it, its own, and
      those after it, still numbered by position. */
  lemma SectionsSplitAt(summaries: seq<string>, i: nat)
    requires i < |summaries|
    ensures Sections(summaries, 1)
            == Sections(summaries[..i], 1) + Section(i + 1, summaries[i]) + Sections(summaries[i + 1..], i + 2)
  {
    var a, b, c := summaries[..i], [summaries[i]], summaries[i + 1..];
    assert summaries == (a + b) + c;
    SectionsAppend(a + b, c, 1);
    NextSection(summaries, i);
    assert summaries[..i + 1] == a + b;
  }

  lemma SliceMiddle(x: string, y: string, z: string)
    ensures (x + y + z)[|x| .. |x| + |y|] == y
  {
  }

  /** The two synthesis prompts never coincide: after the shared header one
      reads "Chunk summaries:" and the other "Captions: ", so the branch taken
      is visible in the prompt. */
  lemma PromptShapesDiffer(url: string, videoData: string, summaries: seq<string>, captions: string)
    ensures MultiPrompt(url, videoData, summaries) != DirectPrompt(url, videoData, captions)
  {
    var h := |VideoHeader(url, videoData)|;
    assert MultiPrompt(url, videoData, summaries)[h + 1] == 'h';
    assert DirectPrompt(url, videoData, captions)[h + 1] == 'a';
  }
}
