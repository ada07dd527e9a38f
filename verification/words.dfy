/**
  Whitespace word splitting and single-space joining, as app.py uses them:
  `video_captions.split()` with no separator argument, and `" ".join(...)`.
 */
module Words {
  import opened Seqs

  /** The characters for which Python's `str.isspace()` holds, one by one. */
  const PythonWhitespace: seq<char> := [
    '\t', '\n', '\U{0B}', '\U{0C}', '\r', '\U{1C}', '\U{1D}', '\U{1E}', '\U{1F}', ' ',
    '\U{85}', '\U{A0}', '\U{1680}',
    '\U{2000}', '\U{2001}', '\U{2002}', '\U{2003}', '\U{2004}', '\U{2005}',
    '\U{2006}', '\U{2007}', '\U{2008}', '\U{2009}', '\U{200A}',
    '\U{2028}', '\U{2029}', '\U{202F}', '\U{205F}', '\U{3000}'
  ]

  /** The whitespace test `str.split()` with no argument splits on, written
      as code-point ranges. */
  predicate IsSpace(c: char)
  {
    || c == ' ' || c == '\t' || c == '\n' || c == '\r'
    || c == '\U{0B}' || c == '\U{0C}'
    || ('\U{1C}' <= c <= '\U{1F}')
    || c == '\U{85}' || c == '\U{A0}' || c == '\U{1680}'
    || ('\U{2000}' <= c <= '\U{200A}')
    || c == '\U{2028}' || c == '\U{2029}' || c == '\U{202F}'
    || c == '\U{205F}' || c == '\U{3000}'
  }

  /** The range test and the character table agree on every character. */
  lemma WhitespaceTable(c: char)
    ensures IsSpace(c) <==> c in PythonWhitespace
  {
  }

  /** A word as `str.split()` produces it: non-empty and free of whitespace. */
  predicate IsWord(w: string)
  {
    |w| > 0 && forall i :: 0 <= i < |w| ==> !IsSpace(w[i])
  }

  predicate AllWords(ws: seq<string>)
  {
    forall k :: 0 <= k < |ws| ==> IsWord(ws[k])
  }

  /** The non-whitespace characters of `s`, in order. */
  function Squeeze(s: string): string
  {
    if |s| == 0 then "" else (if IsSpace(s[0]) then "" else [s[0]]) + Squeeze(s[1..])
  }

  lemma {:induction false} SqueezeAppend(a: string, b: string)
    ensures Squeeze(a + b) == Squeeze(a) + Squeeze(b)
    decreases |a|
  {
    if |a| == 0 {
      assert a + b == b;
    } else {
      assert (a + b)[0] == a[0];
      assert (a + b)[1..] == a[1..] + b;
      SqueezeAppend(a[1..], b);
    }
  }

  /** Length of the longest whitespace-free prefix of `s`. */
  function WordLen(s: string): (n: nat)
    ensures n <= |s|
    ensures forall i :: 0 <= i < n ==> !IsSpace(s[i])
    ensures n < |s| ==> IsSpace(s[n])
  {
    if |s| == 0 || IsSpace(s[0]) then 0 else 1 + WordLen(s[1..])
  }

  lemma {:induction false} WordLenAppend(x: string, y: string)
    ensures WordLen(x + y) == if WordLen(x) < |x| then WordLen(x) else |x| + WordLen(y)
    decreases |x|
  {
    if |x| == 0 {
      assert x + y == y;
    } else {
      assert (x + y)[0] == x[0];
      assert (x + y)[1..] == x[1..] + y;
      if !IsSpace(x[0]) {
        WordLenAppend(x[1..], y);
      }
    }
  }

  /** Python's `s.split()`: the maximal whitespace-free runs of `s`, in order. */
  function Split(s: string): seq<string>
    decreases |s|
  {
    if |s| == 0 then []
    else if IsSpace(s[0]) then Split(s[1..])
    else
      var n := WordLen(s);
      [s[..n]] + Split(s[n..])
  }

  /** No word is empty and no word holds whitespace, and nothing but
      whitespace is dropped. */
  lemma {:induction false} SplitLaws(s: string)
    ensures AllWords(Split(s))
    ensures Concat(Split(s)) == Squeeze(s)
    decreases |s|
  {
    if |s| == 0 {
    } else if IsSpace(s[0]) {
      SplitLaws(s[1..]);
      assert Squeeze(s) == Squeeze(s[1..]);
    } else {
      var n := WordLen(s);
      var rest := Split(s[n..]);
      SplitLaws(s[n..]);
      SqueezeWord(s[..n]);
      assert s == s[..n] + s[n..];
      SqueezeAppend(s[..n], s[n..]);
      assert ([s[..n]] + rest)[1..] == rest;
    }
  }

  lemma {:induction false} SqueezeWord(w: string)
    requires forall i :: 0 <= i < |w| ==> !IsSpace(w[i])
    ensures Squeeze(w) == w
    decreases |w|
  {
    if |w| > 0 {
      SqueezeWord(w[1..]);
      assert w == [w[0]] + w[1..];
    }
  }

  /** Python's `" ".join(words)`. */
  function Join(words: seq<string>): string
  {
    if |words| == 0 then ""
    else if |words| == 1 then words[0]
    else words[0] + " " + Join(words[1..])
  }

  /** The join puts exactly one separator character between consecutive
      words and adds nothing else, so removing the whitespace from the join
      of `split()` words leaves the words run together. */
  lemma {:induction false} JoinLaws(words: seq<string>)
    ensures |words| > 0 ==> |Join(words)| == |Concat(words)| + |words| - 1
    ensures AllWords(words) ==> Squeeze(Join(words)) == Concat(words)
    decreases |words|
  {
    if |words| > 0 {
      assert Concat(words) == words[0] + Concat(words[1..]);
      JoinStep(words);
      if |words| > 1 {
        JoinLaws(words[1..]);
      }
    }
  }

  /** What one word contributes to the join, once its whitespace is gone. */
  lemma JoinStep(words: seq<string>)
    requires |words| > 0
    ensures AllWords(words) ==> AllWords(words[1..])
    ensures AllWords(words) ==> Squeeze(words[0]) == words[0]
    ensures |words| > 1 && AllWords(words) ==>
      forall rest :: Squeeze(words[0] + " " + rest) == words[0] + Squeeze(rest)
  {
    if AllWords(words) {
      assert AllWords(words[1..]) by {
        forall k | 0 <= k < |words| - 1 ensures IsWord(words[1..][k]) {
          assert words[1..][k] == words[k + 1];
        }
      }
      SqueezeWord(words[0]);
      forall rest: string ensures Squeeze(words[0] + " " + rest) == words[0] + Squeeze(rest) {
        SqueezeAppend(words[0], " ");
        SqueezeAppend(words[0] + " ", rest);
      }
    }
  }

  /** Splitting at a whitespace character splits the two sides independently:
      with `Split("") == []` and `SplitWord`, this pins `Split` down for every
      string. */
  lemma {:induction false} SplitAtSpace(a: string, c: char, b: string)
    requires IsSpace(c)
    ensures Split(a + [c] + b) == Split(a) + Split(b)
    decreases |a|
  {
    var s := a + [c] + b;
    if |a| == 0 {
      assert s == [c] + b;
      assert s[1..] == b;
    } else if IsSpace(a[0]) {
      assert s[0] == a[0];
      assert s[1..] == a[1..] + [c] + b;
      SplitAtSpace(a[1..], c, b);
    } else if WordLen(a) < |a| {
      SplitAtSpaceInnerWord(a, c, b);
    } else {
      SplitAtSpaceWholeWord(a, c, b);
    }
  }

  /** `a` starts with a word that ends inside `a`. */
  lemma {:induction false} SplitAtSpaceInnerWord(a: string, c: char, b: string)
    requires IsSpace(c) && |a| > 0 && !IsSpace(a[0]) && WordLen(a) < |a|
    ensures Split(a + [c] + b) == Split(a) + Split(b)
    decreases |a|, 0
  {
    var m := WordLen(a);
    var w, r := a[..m], a[m..];
    LeadingWord(a);
    assert Split(a + [c] + b) == [w] + Split(r + [c] + b) by {
      assert a + [c] + b == w + (r + [c] + b);
      assert (r + [c] + b)[0] == r[0];
      SplitAfterWord(w, r + [c] + b);
    }
    assert Split(a) == [w] + Split(r) by {
      SplitAfterWord(w, r);
    }
    SplitAtSpace(r, c, b);
    assert [w] + (Split(r) + Split(b)) == ([w] + Split(r)) + Split(b);
  }

  /** A string that starts with a word ending inside it is that word, then
      a part that starts with whitespace. */
  lemma LeadingWord(a: string)
    requires |a| > 0 && !IsSpace(a[0]) && WordLen(a) < |a|
    ensures IsWord(a[..WordLen(a)])
    ensures |a[WordLen(a)..]| > 0 && IsSpace(a[WordLen(a)..][0])
    ensures a == a[..WordLen(a)] + a[WordLen(a)..]
  {
    var m := WordLen(a);
    forall i | 0 <= i < m ensures !IsSpace(a[..m][i]) {
      assert a[..m][i] == a[i];
    }
    assert a[m..][0] == a[m];
  }

  /** A word followed by whitespace splits off as the first word. */
  lemma SplitAfterWord(w: string, t: string)
    requires IsWord(w) && |t| > 0 && IsSpace(t[0])
    ensures Split(w + t) == [w] + Split(t)
  {
    var u := w + t;
    assert u[0] == w[0];
    assert WordLen(w) == |w|;
    WordLenAppend(w, t);
    assert u[..|w|] == w && u[|w|..] == t;
    SplitLeadingWord(u);
  }

  /** A string that starts with a word splits into that word and the rest. */
  lemma SplitLeadingWord(s: string)
    requires |s| > 0 && !IsSpace(s[0])
    ensures Split(s) == [s[..WordLen(s)]] + Split(s[WordLen(s)..])
  {
  }

  /** `a` is one whole word. */
  lemma SplitAtSpaceWholeWord(a: string, c: char, b: string)
    requires IsSpace(c) && |a| > 0 && !IsSpace(a[0]) && WordLen(a) == |a|
    ensures Split(a + [c] + b) == Split(a) + Split(b)
  {
    var s := a + [c] + b;
    assert s[0] == a[0];
    WordLenAppend(a, [c] + b);
    assert s == a + ([c] + b);
    assert WordLen(s) == |a|;
    assert s[..|a|] == a && s[|a|..] == [c] + b;
    SplitAfterSpace(c, b);
    assert Split(s) == [a] + Split(b);
    SplitWord(a);
  }

  lemma SplitAfterSpace(c: char, b: string)
    requires IsSpace(c)
    ensures Split([c] + b) == Split(b)
  {
    assert ([c] + b)[1..] == b;
  }

  /** A single word splits to itself. */
  lemma SplitWord(w: string)
    requires IsWord(w)
    ensures Split(w) == [w]
  {
    assert WordLen(w) == |w|;
    assert w[..|w|] == w;
    assert w[|w|..] == [];
  }

  /** Round trip: splitting the space-joined words gives the words back. */
  lemma {:induction false} SplitJoin(words: seq<string>)
    requires AllWords(words)
    ensures Split(Join(words)) == words
    decreases |words|
  {
    if |words| == 1 {
      SplitWord(words[0]);
    } else if |words| > 1 {
      SplitWord(words[0]);
      SplitJoin(words[1..]);
      SplitAtSpace(words[0], ' ', Join(words[1..]));
      assert words[0] + " " + Join(words[1..]) == words[0] + [' '] + Join(words[1..]);
      assert words == [words[0]] + words[1..];
    }
  }

  /** `split()` yields no words exactly when the text is blank (empty or
      whitespace only). */
  lemma SplitBlank(s: string)
    ensures Split(s) == [] <==> forall i :: 0 <= i < |s| ==> IsSpace(s[i])
  {
    SplitLaws(s);
    if forall i :: 0 <= i < |s| ==> IsSpace(s[i]) {
      SqueezeBlank(s);
    } else {
      var i :| 0 <= i < |s| && !IsSpace(s[i]);
      SqueezeKeeps(s, i);
    }
  }

  lemma {:induction false} SqueezeBlank(s: string)
    requires forall i :: 0 <= i < |s| ==> IsSpace(s[i])
    ensures Squeeze(s) == ""
    decreases |s|
  {
    if |s| > 0 {
      SqueezeBlank(s[1..]);
    }
  }

  lemma {:induction false} SqueezeKeeps(s: string, i: nat)
    requires i < |s| && !IsSpace(s[i])
    ensures |Squeeze(s)| > 0
    decreases |s|
  {
    if i > 0 && IsSpace(s[0]) {
      SqueezeKeeps(s[1..], i - 1);
    }
  }

  /** Joining two non-empty word lists puts one space between them. */
  lemma {:induction false} JoinAppend(a: seq<string>, b: seq<string>)
    requires |a| > 0 && |b| > 0
    ensures Join(a + b) == Join(a) + " " + Join(b)
    decreases |a|
  {
    if |a| == 1 {
      assert (a + b)[0] == a[0];
      assert (a + b)[1..] == b;
    } else {
      assert (a + b)[0] == a[0];
      assert (a + b)[1..] == a[1..] + b;
      JoinAppend(a[1..], b);
    }
  }
}
