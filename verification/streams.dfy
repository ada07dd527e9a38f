/**
  Draining a model's response stream (app.py lines 99-101, 118-120 and
  130-132): every fragment is a `(tag, text)` pair, and only the text of
  fragments tagged "content" is appended, in arrival order.
 */
module Streams {

  type Fragment = (string, string)

  const ContentTag := "content"

  /** Text a fragment contributes to the summary. */
  function Contribution(f: Fragment): string
  {
    if f.0 == ContentTag then f.1 else ""
  }

  /** Reference definition: the contributions of all fragments, in order. */
  function Collected(stream: seq<Fragment>): string
  {
    if |stream| == 0 then ""
    else Contribution(stream[0]) + Collected(stream[1..])
  }

  /** A stream without `content` fragments collects to nothing, and a stream
      that collects to nothing has no `content` fragment with text. */
  lemma {:induction false} CollectedEmpty(stream: seq<Fragment>)
    ensures Collected(stream) == "" <==>
            forall i :: 0 <= i < |stream| && stream[i].0 == ContentTag ==> stream[i].1 == ""
    decreases |stream|
  {
    if |stream| > 0 {
      CollectedEmpty(stream[1..]);
      assert forall i :: 1 <= i < |stream| ==> stream[i] == stream[1..][i - 1];
    }
  }

  /** Collecting is compositional: a stream read in two parts collects to the
      two parts' texts, one after the other. */
  lemma {:induction false} CollectedAppend(a: seq<Fragment>, b: seq<Fragment>)
    ensures Collected(a + b) == Collected(a) + Collected(b)
    decreases |a|
  {
    if |a| == 0 {
      assert a + b == b;
    } else {
      assert a == [a[0]] + a[1..];
      assert a + b == [a[0]] + (a[1..] + b);
      CollectedCons(a[0], a[1..]);
      CollectedCons(a[0], a[1..] + b);
      CollectedAppend(a[1..], b);
    }
  }

  /** The accumulation loop of app.py lines 99-101 (and 118-120, 130-132):
      the result is the content text of the whole stream. */
  method Accumulate(stream: seq<Fragment>) returns (summary: string)
    ensures summary == Collected(stream)
  {
    summary := "";
    var i := 0;
    while i < |stream|
      invariant i <= |stream|
      invariant summary == Collected(stream[..i])
    {
      var result := stream[i];
      if result.0 == "content" {
        summary := summary + result.1;
      }
      CollectedAppend(stream[..i], [stream[i]]);
      assert stream[..i + 1] == stream[..i] + [stream[i]];
      i := i + 1;
    }
    assert stream[..i] == stream;
  }

  /** A fragment with any other tag changes nothing, wherever it arrives. */
  lemma IgnoresOtherTags(stream: seq<Fragment>, i: nat)
    requires i < |stream| && stream[i].0 != ContentTag
    ensures Collected(stream[..i] + stream[i + 1..]) == Collected(stream)
  {
    AroundIndex(stream, i);
    CollectedAppend(stream[..i], [stream[i]] + stream[i + 1..]);
    CollectedCons(stream[i], stream[i + 1..]);
    CollectedAppend(stream[..i], stream[i + 1..]);
  }

  /** A content fragment adds its text verbatim, at its place in the order. */
  lemma ContentIsKept(stream: seq<Fragment>, i: nat)
    requires i < |stream| && stream[i].0 == ContentTag
    ensures Collected(stream) == Collected(stream[..i]) + stream[i].1 + Collected(stream[i + 1..])
  {
    var a, f, c := stream[..i], stream[i], stream[i + 1..];
    AroundIndex(stream, i);
    CollectedAppend(a, [f] + c);
    CollectedCons(f, c);
  }

  lemma AroundIndex<T>(s: seq<T>, i: nat)
    requires i < |s|
    ensures s == s[..i] + ([s[i]] + s[i + 1..])
  {
  }

  lemma CollectedCons(f: Fragment, rest: seq<Fragment>)
    ensures Collected([f] + rest) == Contribution(f) + Collected(rest)
  {
    assert ([f] + rest)[1..] == rest;
  }

  /** A stream cut short collects to a prefix of what the whole stream would
      have given: truncation loses a tail and is otherwise indistinguishable. */
  lemma TruncationIsPrefix(stream: seq<Fragment>, k: nat)
    requires k <= |stream|
    ensures Collected(stream[..k]) <= Collected(stream)
  {
    assert stream == stream[..k] + stream[k..];
    CollectedAppend(stream[..k], stream[k..]);
  }
}
