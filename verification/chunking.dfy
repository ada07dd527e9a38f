/**
  Fixed-window chunking of the caption words (app.py lines 82-87): the words
  are cut into consecutive windows of `chunkLimit` words, each window is
  re-joined with single spaces, and the windows are counted.
 */
module Chunking {
  import opened Seqs
  import opened Words

  /** Number of windows needed for `n` words: the ceiling of n / limit. */
  function CeilDiv(n: nat, limit: nat): nat
    requires limit > 0
  {
    (n + limit - 1) / limit
  }

  /** Reference definition of the word windows: the first `limit` words,
      then the windows of the rest. Every window but the last is full and
      none is empty or over the limit. */
  function Windows(words: seq<string>, limit: nat): (ws: seq<seq<string>>)
    requires limit > 0
    ensures forall k :: 0 <= k < |ws| - 1 ==> |ws[k]| == limit
    ensures forall k :: 0 <= k < |ws| ==> 0 < |ws[k]| <= limit
    decreases |words|
  {
    if |words| == 0 then []
    else if |words| <= limit then [words]
    else [words[..limit]] + Windows(words[limit..], limit)
  }

  /** The windows partition the words: concatenated in order they give back
      exactly the word list, nothing dropped, repeated or reordered. */
  lemma {:induction false} WindowsCover(words: seq<string>, limit: nat)
    requires limit > 0
    ensures Concat(Windows(words, limit)) == words
    decreases |words|
  {
    if |words| == 0 {
    } else if |words| <= limit {
      assert Concat([words]) == words + Concat([]);
    } else {
      var rest := Windows(words[limit..], limit);
      WindowsCover(words[limit..], limit);
      assert ([words[..limit]] + rest)[1..] == rest;
      assert words == words[..limit] + words[limit..];
    }
  }

  /** There are ceil(|words| / limit) windows; the last one holds the
      remainder of the division, or a full `limit` when it divides evenly. */
  lemma {:induction false} WindowCount(words: seq<string>, limit: nat)
    requires limit > 0
    ensures |Windows(words, limit)| == CeilDiv(|words|, limit)
    ensures |words| > 0 ==> |Windows(words, limit)[|Windows(words, limit)| - 1]|
                            == if |words| % limit == 0 then limit else |words| % limit
    decreases |words|
  {
    var ws := Windows(words, limit);
    if |words| == 0 {
    } else if |words| <= limit {
      assert CeilDiv(|words|, limit) == 1 by {
        DivUnique(|words| + limit - 1, limit, 1, |words| - 1);
      }
      if |words| < limit {
        DivUnique(|words|, limit, 0, |words|);
      } else {
        DivUnique(|words|, limit, 1, 0);
      }
    } else {
      var rest := words[limit..];
      WindowCount(rest, limit);
      assert ws == [words[..limit]] + Windows(rest, limit);
      CeilDivStep(|rest|, limit);
      ModStep(|rest|, limit);
    }
  }

  lemma CeilDivStep(n: nat, limit: nat)
    requires limit > 0
    ensures CeilDiv(n + limit, limit) == CeilDiv(n, limit) + 1
  {
    var x := n + limit - 1;
    assert x + limit == (x / limit + 1) * limit + x % limit;
    DivUnique(x + limit, limit, x / limit + 1, x % limit);
  }

  lemma ModStep(n: nat, limit: nat)
    requires limit > 0
    ensures (n + limit) % limit == n % limit
  {
    assert n + limit == (n / limit + 1) * limit + n % limit;
    DivUnique(n + limit, limit, n / limit + 1, n % limit);
  }

  /** Division is determined by quotient and remainder. */
  lemma DivUnique(x: nat, d: nat, q: nat, r: nat)
    requires d > 0 && r < d && x == q * d + r
    ensures x / d == q && x % d == r
  {
    var q', r' := x / d, x % d;
    assert x == q' * d + r';
    if q' < q {
      assert q' * d + d <= q * d by { MulMono(q' + 1, q, d); }
    } else if q' > q {
      assert q * d + d <= q' * d by { MulMono(q + 1, q', d); }
    }
  }

  lemma MulMono(a: nat, b: nat, d: nat)
    requires a <= b
    ensures a * d <= b * d
  {
  }

  /** Each window re-joined with single spaces: the chunk texts. */
  function JoinEach(ws: seq<seq<string>>): (chunks: seq<string>)
    ensures |chunks| == |ws|
  {
    seq(|ws|, k requires 0 <= k < |ws| => Join(ws[k]))
  }

  /** The chunking loop of app.py lines 82-87: a cursor `i` walks the words in
      steps of `chunkLimit`, each step appends the space-joined slice
      `words[i : i + chunkLimit]` (clamped at the end, as a Python slice is)
      and counts one chunk. The result is the reference windows, joined, so
      `WindowCount` gives the number of chunks. */
  method ChunkWords(words: seq<string>, chunkLimit: nat) returns (chunks: seq<string>, numChunks: nat)
    requires chunkLimit > 0
    ensures chunks == JoinEach(Windows(words, chunkLimit))
    ensures numChunks == |chunks|
  {
    chunks := [];
    numChunks := 0;
    var i := 0;
    while i < |words|
      invariant numChunks == |chunks|
      invariant JoinEach(Windows(words, chunkLimit))
                == chunks + JoinEach(Windows(words[Min(i, |words|)..], chunkLimit))
    {
      var hi := Min(i + chunkLimit, |words|);
      var chunk := Join(words[i..hi]);
      ghost var later := JoinEach(Windows(words[hi..], chunkLimit));
      ChunkStep(words, chunkLimit, i);
      assert JoinEach(Windows(words[Min(i, |words|)..], chunkLimit)) == [chunk] + later;
      assert chunks + ([chunk] + later) == (chunks + [chunk]) + later;
      numChunks := numChunks + 1;
      chunks := chunks + [chunk];
      i := i + chunkLimit;
      assert Min(i, |words|) == hi;
    }
    assert words[Min(i, |words|)..] == [];
  }

  /** One turn of the chunking loop: the windows from cursor `i` are the
      joined slice at `i` followed by the windows from `i + limit`. */
  lemma ChunkStep(words: seq<string>, limit: nat, i: nat)
    requires limit > 0 && i < |words|
    ensures JoinEach(Windows(words[i..], limit))
            == [Join(words[i .. Min(i + limit, |words|)])]
               + JoinEach(Windows(words[Min(i + limit, |words|)..], limit))
  {
    var hi := Min(i + limit, |words|);
    WindowsHead(words[i..], limit);
    assert words[i..][..Min(limit, |words| - i)] == words[i..hi];
    assert words[i..][Min(limit, |words| - i)..] == words[hi..];
    JoinEachAppend([words[i..hi]], Windows(words[hi..], limit));
  }

  /** One step of the reference windows on a non-empty word list. */
  lemma WindowsHead(words: seq<string>, limit: nat)
    requires limit > 0 && |words| > 0
    ensures Windows(words, limit)
            == [words[..Min(limit, |words|)]] + Windows(words[Min(limit, |words|)..], limit)
  {
    if |words| <= limit {
      assert words[..|words|] == words;
      assert words[|words|..] == [];
    }
  }

  lemma JoinEachAppend(a: seq<seq<string>>, b: seq<seq<string>>)
    ensures JoinEach(a + b) == JoinEach(a) + JoinEach(b)
  {
    var l, r := JoinEach(a + b), JoinEach(a) + JoinEach(b);
    assert |l| == |r|;
    forall k | 0 <= k < |l|
      ensures l[k] == r[k]
    {
      if k < |a| {
        assert (a + b)[k] == a[k];
      } else {
        assert (a + b)[k] == b[k - |a|];
      }
    }
  }

  /** Window `k` is the slice `words[k*limit : k*limit + limit]` of the source
      loop, clamped at the end of the word list. */
  lemma WindowAt(words: seq<string>, limit: nat, k: nat)
    requires limit > 0 && k < |Windows(words, limit)|
    ensures k * limit < |words|
    ensures Windows(words, limit)[k] == words[k * limit .. Min(k * limit + limit, |words|)]
  {
    WindowAtStart(words, limit, k);
    StartIsProduct(k, limit);
  }

  /** Start of window `k`, counted up one window at a time. */
  function Start(k: nat, limit: nat): nat
  {
    if k == 0 then 0 else Start(k - 1, limit) + limit
  }

  lemma {:induction false} StartIsProduct(k: nat, limit: nat)
    ensures Start(k, limit) == k * limit
  {
    if k > 0 {
      StartIsProduct(k - 1, limit);
      assert (k - 1) * limit + limit == k * limit;
    }
  }

  lemma {:induction false} WindowAtStart(words: seq<string>, limit: nat, k: nat)
    requires limit > 0 && k < |Windows(words, limit)|
    ensures Start(k, limit) < |words|
    ensures Windows(words, limit)[k] == words[Start(k, limit) .. Min(Start(k, limit) + limit, |words|)]
    decreases k
  {
    if k == 0 {
      WindowsFirst(words, limit);
    } else {
      WindowsRest(words, limit, k);
      WindowAtStart(words[limit..], limit, k - 1);
      ShiftWindow(words, limit, k);
    }
  }

  /** Window `k - 1` of the words after the first window is window `k` of
      all the words, as a slice. */
  lemma ShiftWindow(words: seq<string>, limit: nat, k: nat)
    requires 0 < k && limit < |words| && Start(k - 1, limit) < |words| - limit
    ensures Start(k, limit) < |words|
    ensures words[limit..][Start(k - 1, limit) .. Min(Start(k - 1, limit) + limit, |words| - limit)]
            == words[Start(k, limit) .. Min(Start(k, limit) + limit, |words|)]
  {
    var lo := Start(k - 1, limit);
    SliceOfSuffix(words, limit, lo, Min(lo + limit, |words| - limit));
  }

  lemma WindowsFirst(words: seq<string>, limit: nat)
    requires limit > 0 && |Windows(words, limit)| > 0
    ensures |words| > 0
    ensures Windows(words, limit)[0] == words[..Min(limit, |words|)]
  {
  }

  lemma WindowsRest(words: seq<string>, limit: nat, k: nat)
    requires limit > 0 && 0 < k < |Windows(words, limit)|
    ensures |words| > limit
    ensures k - 1 < |Windows(words[limit..], limit)|
    ensures Windows(words, limit)[k] == Windows(words[limit..], limit)[k - 1]
  {
  }

  lemma SliceOfSuffix<T>(s: seq<T>, a: nat, lo: nat, hi: nat)
    requires a <= |s| && lo <= hi <= |s| - a
    ensures s[a..][lo..hi] == s[a + lo .. a + hi]
  {
  }

  /** Every window of `split()` words holds only such words. */
  lemma {:induction false} WindowsAllWords(words: seq<string>, limit: nat)
    requires limit > 0 && AllWords(words)
    ensures forall k :: 0 <= k < |Windows(words, limit)| ==> AllWords(Windows(words, limit)[k])
    decreases |words|
  {
    if |words| > limit {
      WindowsAllWords(words[limit..], limit);
      assert Windows(words, limit) == [words[..limit]] + Windows(words[limit..], limit);
    }
  }

  /** Each chunk text splits back to exactly its window of words, because
      words from `split()` hold no whitespace. */
  lemma ChunkSplitsToWindow(words: seq<string>, limit: nat, k: nat)
    requires limit > 0 && AllWords(words)
    requires k < |Windows(words, limit)|
    ensures Split(JoinEach(Windows(words, limit))[k]) == Windows(words, limit)[k]
  {
    WindowsAllWords(words, limit);
    SplitJoin(Windows(words, limit)[k]);
  }

  /** Joining the chunk texts with single spaces is joining all the words. */
  lemma {:induction false} JoinChunks(ws: seq<seq<string>>)
    requires forall k :: 0 <= k < |ws| ==> |ws[k]| > 0
    ensures Join(JoinEach(ws)) == Join(Concat(ws))
    decreases |ws|
  {
    if |ws| == 1 {
      assert Concat(ws) == ws[0] + Concat(ws[1..]);
      assert ws[0] + [] == ws[0];
    } else if |ws| > 1 {
      JoinChunks(ws[1..]);
      assert JoinEach(ws)[1..] == JoinEach(ws[1..]);
      ConcatNonEmpty(ws[1..]);
      JoinAppend(ws[0], Concat(ws[1..]));
    }
  }

  lemma ConcatNonEmpty(ws: seq<seq<string>>)
    requires |ws| > 0 && |ws[0]| > 0
    ensures |Concat(ws)| > 0
  {
  }

  /** Re-chunking the space-joined chunk texts with the same limit gives the
      same chunks: the lossy single-space rejoin does not move a boundary. */
  lemma Rechunk(words: seq<string>, limit: nat)
    requires limit > 0 && AllWords(words)
    ensures JoinEach(Windows(Split(Join(JoinEach(Windows(words, limit)))), limit))
            == JoinEach(Windows(words, limit))
  {
    JoinChunks(Windows(words, limit));
    WindowsCover(words, limit);
    SplitJoin(words);
  }

  /** The chunk count exceeds one exactly when there are more words than the
      limit, and is zero exactly when there are no words. */
  lemma ChunkCount(words: seq<string>, limit: nat)
    requires limit > 0
    ensures |Windows(words, limit)| > 1 <==> |words| > limit
    ensures |Windows(words, limit)| == 0 <==> |words| == 0
  {
    if |words| > limit {
      assert |Windows(words, limit)| == 1 + |Windows(words[limit..], limit)|;
      assert |Windows(words[limit..], limit)| > 0;
    }
  }
}
