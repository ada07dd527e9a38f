# YouTube video summarizer: caption-to-prompt pipeline in Dafny

This project models the one piece of logic in the summarizer's `main()` in
`app.py`. That piece turns a video's caption text into the prompts sent to
a language model, and collects the model's streamed answers into summaries.
The model does this in five steps:

1. **Word splitting.** `video_captions.split()` breaks the text on runs of
   whitespace. The whitespace set is the one Python's `str.isspace()` uses.
   No word is empty.
2. **Chunking.** A cursor walks the word list in steps of `chunk_limit`.
   Each step joins the slice `words[i : i + chunk_limit]` with single spaces
   and counts one chunk.
3. **Branch selection.** With more than one chunk, each chunk is summarised
   and a second call synthesises over the numbered summaries. With zero or
   one chunk, a single call synthesises over the raw captions.
4. **Prompt assembly.** There are three prompts:
   - the per-chunk prompt;
   - the multi-chunk synthesis prompt, with `Chunk i:` sections separated by
     `---`;
   - the direct synthesis prompt over the raw captions.
5. **Stream accumulation.** Each model call streams `(tag, text)` fragments.
   Only fragments tagged `content` are kept, and their texts are
   concatenated in arrival order.

Modules:

- `Seqs` (`seqs.dfy`) holds sequence helpers.
- `Words` (`words.dfy`) models `split()` and `" ".join`.
- `Chunking` (`chunking.dfy`) has the reference windows and the source's
  loop.
- `Prompts` (`prompts.dfy`) builds the three prompts and renders the chunk
  index in decimal.
- `Streams` (`streams.dfy`) models the content filter.
- `Pipeline` (`pipeline.dfy`) models the run from the caption check at
  line 72 to the end of synthesis at line 133.

Each operation has an independent partner, connected by a lemma or by a
method contract:

- `Split` is fixed by its behaviour at a whitespace character
  (`SplitAtSpace`) and by its round trip with `Join` (`SplitJoin`).
- `Join` is pinned by its length and whitespace laws (`JoinLaws`), by
  `SplitJoin` and by `JoinAppend`.
- The chunking loop is proved equal to a recursive reference definition.
  Facts about partition, sizes, count and slice position are proved about
  that reference definition.
- The per-chunk and direct prompts have inverse readers (`ChunkOfPrompt`,
  `CaptionsOfPrompt`). With the fixed opening and the closing blank line
  (`ChunkPromptShape`, `DirectPromptShape`), these readers fix each prompt
  completely. One section has the same kind of reader (`SummaryOfSection`).
- The multi-chunk prompt is placed section by section (`SectionPlacement`),
  nothing follows the last section (`MultiPromptEnd`), and the appending
  loop is proved equal to it (`BuildMultiPrompt`).
- The accumulation loop is proved equal to a compositional reference
  (`Collected`), which is pinned by `CollectedAppend`, `IgnoresOtherTags`,
  `ContentIsKept` and `CollectedEmpty`.

Line 72 of `app.py` rejects only an absent or empty caption string.
Captions made only of whitespace pass that check. They give zero words and
zero chunks, and they take the direct path because line 89 tests
`num_chunks > 1`. `Pipeline.BlankCaptionsGoDirect` and the `Summarize`
contract state this behaviour.

## Model

| member | source | states |
|---|---|---|
| Words.SplitLaws | app.py:84 | every word of `split()` is non-empty and free of whitespace, and the words concatenated give the text with only its whitespace removed |
| Words.WhitespaceTable | app.py:84 | the characters `split()` breaks on are exactly the 29 for which Python's `str.isspace()` holds, listed one by one |
| Words.SplitAtSpace | app.py:84 | splitting at any whitespace character splits the two sides independently; with `SplitWord` and the empty case this fixes `split()` on every string |
| Words.SplitJoin | app.py:84-87 | splitting the single-space join of a word list gives back exactly that word list |
| Words.SplitBlank | app.py:84 | `split()` gives no words exactly when the text is empty or all whitespace |
| Words.JoinLaws | app.py:87 | `" ".join` of n > 0 words is as long as the words together plus n - 1 separators, and for `split()` words removing the whitespace from the join leaves the words run together |
| Words.JoinAppend | app.py:87 | joining two non-empty word lists puts exactly one space between their joins |
| Chunking.Windows | app.py:85-87 | every window except the last holds exactly `chunk_limit` words, and every window holds between 1 and `chunk_limit` words |
| Chunking.WindowsCover | app.py:84-87 | the windows concatenated in order give back exactly the word list, with nothing dropped, duplicated or reordered |
| Chunking.WindowCount | app.py:83-87 | there are ceil(len(words) / chunk_limit) windows, which is 0 for no words; the last holds len(words) mod chunk_limit words, or chunk_limit when that is 0 |
| Chunking.ChunkWords | app.py:82-87 | the cursor loop's `chunks` are the reference windows joined by single spaces, and `num_chunks` equals `len(chunks)` (so `WindowCount` gives its value) |
| Chunking.WindowAt | app.py:85-87 | window k starts below len(words) and is the slice `words[k*limit : k*limit + limit]`, clamped at the end of the list |
| Chunking.ChunkSplitsToWindow | app.py:84-87 | splitting chunk k's text gives back exactly window k's words |
| Chunking.Rechunk | app.py:84-87 | re-chunking the single-space join of the chunk texts with the same limit gives the same chunks |
| Chunking.ChunkCount | app.py:85-89 | there is more than one chunk exactly when there are more words than `chunk_limit`, and no chunk exactly when there are no words |
| Prompts.NatToString | app.py:115 | the rendered chunk index is a non-empty string of decimal digits with no leading zero |
| Prompts.NatToStringRoundTrip | app.py:115 | the rendered chunk index reads back as the same number |
| Prompts.NatToStringInjective | app.py:114-115 | distinct chunk indices get distinct headers |
| Prompts.ChunkPromptShape | app.py:96-97 | the per-chunk prompt opens with `Video data: `, the metadata text and a blank line, ends with a blank line, and the chunk text read back from between the two is exactly the chunk |
| Prompts.DirectPromptShape | app.py:126-128 | the direct prompt opens with the URL and metadata block and `Captions: `, ends with a blank line, and the text read back from between the two is exactly the captions, whitespace included |
| Prompts.SectionRoundTrip | app.py:115-116 | one section starts with its `Chunk i:` header and a blank line, ends with a blank line and the `---` separator, and the chunk summary between them reads back whole |
| Prompts.MultiPrompt | app.py:110-116 | the multi-chunk synthesis prompt opens with the URL and metadata header and `Chunk summaries:`, is exactly that with no summaries, and otherwise ends with the section of the last summary numbered with the summary count |
| Prompts.LastSection | app.py:114-116 | the sections of a non-empty summary list are those of all but the last, followed by the last one's section numbered by its position |
| Prompts.BuildMultiPrompt | app.py:110-116 | the appending loop gives the URL and metadata header, then `Chunk summaries:`, then one `Chunk i:` section per summary numbered from 1 in list order |
| Prompts.SectionsAppend | app.py:114-116 | the sections of two concatenated summary lists are the sections of each, with the second list numbered on from the first |
| Prompts.SectionPlacement | app.py:114-116 | summary i occupies the slice of the prompt that ends where summary i+1's slice begins, as the section headed `Chunk i+1:`, so the sections appear in increasing order |
| Prompts.MultiPromptEnd | app.py:110-116 | the multi-chunk prompt ends exactly where the last section ends, so no text follows the sections |
| Prompts.PromptShapesDiffer | app.py:110-128 | the multi-chunk and direct synthesis prompts are never equal, so the branch taken shows in the prompt |
| Streams.Accumulate | app.py:99-101 | the accumulation loop returns the concatenation, in stream order, of the texts of the `content` fragments |
| Streams.CollectedEmpty | app.py:99-101 | the collected summary is empty exactly when every `content` fragment of the stream carries empty text |
| Streams.CollectedAppend | app.py:99-101 | collecting a stream read in two parts gives the first part's text followed by the second's |
| Streams.IgnoresOtherTags | app.py:100 | removing a fragment with any tag other than `content`, at any position, leaves the summary unchanged |
| Streams.ContentIsKept | app.py:100-101 | a `content` fragment puts its text verbatim between what came before it and what comes after it |
| Streams.TruncationIsPrefix | app.py:99-101 | a stream cut short collects to a prefix of the full stream's summary |
| Pipeline.Summarize | app.py:72-133 | absent or empty captions stop the run with no model call. Otherwise the chunk-summary branch runs exactly when the word count exceeds `chunk_limit`. On that branch there is one summary per chunk, summary i comes from call i on chunk i's prompt, and the final call gets the numbered synthesis prompt. On the other branch the one call gets the raw-caption prompt. The report is what the last call streams as content |
| Pipeline.SummarizeChunks | app.py:91-104 | one summary and one call per chunk: call i gets chunk i's prompt and summary i is what that call streams as content, in chunk order |
| Pipeline.BlankCaptionsGoDirect | app.py:72-89 | whitespace-only captions pass the emptiness check but give no words and no chunks, so the direct path runs |

## Left out

- The Streamlit interface is not modelled (app.py:8-55, 60-79, 135-136). This covers page setup, widgets, status and spinner containers, live markdown rendering, session state, and `st.rerun` on a model change or on "Regenerate". It is presentation only.
- Caption and metadata fetching through `YouTubeTools` is not modelled (app.py:56, 61, 71). It is network I/O in a library outside this model. Its results enter `Summarize` as parameters: the captions as `Option<string>`, and `video_data` as its already-rendered text.
- The way Python's `repr` renders the `video_data` dictionary inside the f-strings is not modelled. The rendered text is opaque to the pipeline.
- `agent.py` is not modelled. It only configures foreign `Agent`/`Groq` objects with fixed instruction text. Choosing between the Long and Short templates is constant configuration and has no effect on the prompts built here.
- The language-model calls (`chunk_summarizer.run`, `video_summarizer.run`) are not modelled. Each is the `Model` parameter, an arbitrary function from a call's position and prompt to a finite fragment sequence. An exception raised mid-stream is not modelled. A stream that ends early is covered, and `TruncationIsPrefix` states what it yields.
- Summarize: requires `chunk_limit > 0`. The slider at app.py:34-41 keeps it between 1000 and 10000, and Python's `range` with step 0 raises an exception that the model does not reproduce.
