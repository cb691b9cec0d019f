/**
 * Cutting a message into pieces that fit the chat service's per-message
 * limit, preferring to cut at a line feed (`findLastNewline` and
 * `splitStringAtNewLine` in index.js).
 */
module Chunking {
  import opened Text

  /** `text.charAt(i) === '\n'`; `charAt` past the end gives "", never a line feed. */
  predicate IsLineFeedAt(text: string, i: nat) {
    i < |text| && text[i] == '\n'
  }

  /**
   * The index `findLastNewline` returns: the last line feed at or before
   * `maxLength`, or 0 when there is none after index 0. A line feed at
   * index 0 is therefore never reported as a split point.
   */
  function LastNewline(text: string, maxLength: nat): (i: nat)
    ensures i <= maxLength
    ensures i == 0 || IsLineFeedAt(text, i)
    ensures forall k :: i < k <= maxLength ==> !IsLineFeedAt(text, k)
    decreases maxLength
  {
    if IsLineFeedAt(text, maxLength) || maxLength == 0 then maxLength
    else LastNewline(text, maxLength - 1)
  }

  /** `findLastNewline(text, maxLength)`: scans back from `maxLength`. */
  method FindLastNewline(text: string, maxLength: nat) returns (lastNewlineIndex: nat)
    ensures lastNewlineIndex == LastNewline(text, maxLength)
  {
    lastNewlineIndex := maxLength;
    while !IsLineFeedAt(text, lastNewlineIndex) && lastNewlineIndex > 0
      invariant lastNewlineIndex <= maxLength
      invariant LastNewline(text, lastNewlineIndex) == LastNewline(text, maxLength)
      decreases lastNewlineIndex
    {
      lastNewlineIndex := lastNewlineIndex - 1;
    }
  }

  /** Where one step of the splitter cuts: the last line feed, or `maxLength` when there is none. */
  function CutIndex(text: string, maxLength: nat): (p: nat)
    ensures p <= maxLength
    ensures p == maxLength || (0 < p && IsLineFeedAt(text, p))
    ensures forall k :: p < k <= maxLength ==> !IsLineFeedAt(text, k)
    ensures (exists k :: 0 < k <= maxLength && IsLineFeedAt(text, k)) ==> IsLineFeedAt(text, p)
  {
    var i := LastNewline(text, maxLength);
    if i == 0 then maxLength else i
  }

  /** The rest of the text after one step: everything past the cut index plus one. */
  function Remainder(text: string, maxLength: nat): (rest: string)
    requires text != []
    ensures |rest| < |text|
  {
    Suffix(text, CutIndex(text, maxLength) + 1)
  }

  /** The pieces `splitStringAtNewLine(text, maxLength)` returns, in order. */
  function Chunks(text: string, maxLength: nat): (chunks: seq<string>)
    ensures forall i :: 0 <= i < |chunks| ==> |chunks[i]| <= maxLength
    decreases |text|
  {
    if text == [] then []
    else [Prefix(text, CutIndex(text, maxLength))] + Chunks(Remainder(text, maxLength), maxLength)
  }

  /**
   * The characters each step consumes without emitting them: the text between
   * the end of its chunk and the start of the remainder (at most one character).
   */
  function Gaps(text: string, maxLength: nat): seq<string>
    decreases |text|
  {
    if text == [] then []
    else
      var p := CutIndex(text, maxLength);
      [text[Min(p, |text|)..Min(p + 1, |text|)]] + Gaps(Remainder(text, maxLength), maxLength)
  }

  /** Each chunk followed by the character consumed after it. */
  function Interleave(chunks: seq<string>, gaps: seq<string>): string
    requires |chunks| == |gaps|
  {
    if chunks == [] then [] else chunks[0] + gaps[0] + Interleave(chunks[1..], gaps[1..])
  }

  /** One step of the splitter: the first chunk, the consumed character, and the remainder. */
  lemma Step(text: string, maxLength: nat)
    requires text != []
    ensures var p := CutIndex(text, maxLength);
      && Chunks(text, maxLength) == [Prefix(text, p)] + Chunks(Remainder(text, maxLength), maxLength)
      && Gaps(text, maxLength) == [text[Min(p, |text|)..Min(p + 1, |text|)]] + Gaps(Remainder(text, maxLength), maxLength)
      && text == Prefix(text, p) + text[Min(p, |text|)..Min(p + 1, |text|)] + Remainder(text, maxLength)
  {
    var p := CutIndex(text, maxLength);
    var i, j := Min(p, |text|), Min(p + 1, |text|);
    assert text[..i] + text[i..j] == text[..j];
    assert text[..j] + text[j..] == text;
  }

  /** `splitStringAtNewLine(inputText, maxLength)` */
  method SplitAtNewLine(inputText: string, maxLength: nat) returns (chunks: seq<string>)
    ensures chunks == Chunks(inputText, maxLength)
  {
    var remainingText := inputText;
    chunks := [];
    while |remainingText| > 0
      invariant chunks + Chunks(remainingText, maxLength) == Chunks(inputText, maxLength)
      decreases |remainingText|
    {
      var lastNewlineIndex := FindLastNewline(remainingText, maxLength);
      if lastNewlineIndex == 0 {
        lastNewlineIndex := maxLength;
      }
      assert lastNewlineIndex == CutIndex(remainingText, maxLength);
      var chunk := Prefix(remainingText, lastNewlineIndex);
      var rest := Suffix(remainingText, lastNewlineIndex + 1);
      Step(remainingText, maxLength);
      Shift(chunks, chunk, Chunks(rest, maxLength));
      chunks := chunks + [chunk];
      remainingText := rest;
    }
  }

  lemma Shift(done: seq<string>, x: string, rest: seq<string>)
    ensures (done + [x]) + rest == done + ([x] + rest)
  {
  }

  /**
   * Reconstruction: the input is exactly the chunks, each followed by the
   * (at most one) character consumed after it. Nothing is reordered and
   * nothing but the consumed characters is lost.
   */
  lemma {:induction false} Reconstruction(text: string, maxLength: nat)
    ensures |Chunks(text, maxLength)| == |Gaps(text, maxLength)|
    ensures forall i :: 0 <= i < |Gaps(text, maxLength)| ==> |Gaps(text, maxLength)[i]| <= 1
    ensures Interleave(Chunks(text, maxLength), Gaps(text, maxLength)) == text
    decreases |text|
  {
    if text != [] {
      var rest := Remainder(text, maxLength);
      Reconstruction(rest, maxLength);
      Step(text, maxLength);
      var cs, gs := Chunks(text, maxLength), Gaps(text, maxLength);
      assert cs[1..] == Chunks(rest, maxLength);
      assert gs[1..] == Gaps(rest, maxLength);
      assert Interleave(cs, gs) == cs[0] + gs[0] + Interleave(Chunks(rest, maxLength), Gaps(rest, maxLength));
    }
  }

  /**
   * What a step consumes: the line feed it split at; or, after a hard cut
   * (a chunk of exactly `maxLength` characters), the character at index
   * `maxLength` of what remained; or nothing, on the last step only.
   */
  lemma {:induction false} GapKinds(text: string, maxLength: nat)
    ensures |Chunks(text, maxLength)| == |Gaps(text, maxLength)|
    ensures forall i :: 0 <= i < |Gaps(text, maxLength)| ==>
      || Gaps(text, maxLength)[i] == "\n"
      || (|Chunks(text, maxLength)[i]| == maxLength && |Gaps(text, maxLength)[i]| == 1)
      || (i == |Gaps(text, maxLength)| - 1 && Gaps(text, maxLength)[i] == "")
    decreases |text|
  {
    if text != [] {
      var rest := Remainder(text, maxLength);
      GapKinds(rest, maxLength);
      var cs, gs := Chunks(text, maxLength), Gaps(text, maxLength);
      assert cs[1..] == Chunks(rest, maxLength);
      assert gs[1..] == Gaps(rest, maxLength);
      var p := CutIndex(text, maxLength);
      if LastNewline(text, maxLength) != 0 {
        assert gs[0] == [text[p]];
      } else if p < |text| {
        assert |cs[0]| == maxLength;
      } else {
        assert rest == [];
      }
      forall i | 1 <= i < |gs|
        ensures gs[i] == "\n" || (|cs[i]| == maxLength && |gs[i]| == 1) || (i == |gs| - 1 && gs[i] == "")
      {
        assert gs[i] == Gaps(rest, maxLength)[i - 1];
        assert cs[i] == Chunks(rest, maxLength)[i - 1];
      }
    }
  }

  /**
   * The hard cut drops a character: when no line feed lies in (0, maxLength]
   * and the text is longer than `maxLength`, the first chunk is the first
   * `maxLength` characters, the next one starts at index `maxLength + 1`,
   * and the character at index `maxLength`, never a line feed when
   * `maxLength > 0`, is in neither.
   */
  lemma HardCutDropsCharacter(text: string, maxLength: nat)
    requires maxLength < |text|
    requires forall k :: 0 < k <= maxLength ==> text[k] != '\n'
    ensures Chunks(text, maxLength) == [text[..maxLength]] + Chunks(text[maxLength + 1..], maxLength)
    ensures Gaps(text, maxLength)[0] == [text[maxLength]]
    ensures maxLength > 0 ==> text[maxLength] != '\n'
  {
    var i := LastNewline(text, maxLength);
    assert i == 0;
    assert CutIndex(text, maxLength) == maxLength;
    Step(text, maxLength);
    assert Prefix(text, maxLength) == text[..maxLength];
    assert Remainder(text, maxLength) == text[maxLength + 1..];
  }

  /** A concrete case of the dropped character: "abc" cut at 1 loses the "b". */
  lemma HardCutExample()
    ensures Chunks("abc", 1) == ["a", "c"]
  {
    HardCutDropsCharacter("abc", 1);
    assert "abc"[2..] == "c";
    assert "abc"[..1] == "a";
    assert LastNewline("c", 0) == 0;
    assert LastNewline("c", 1) == 0;
    assert CutIndex("c", 1) == 1;
    assert Remainder("c", 1) == [];
    Step("c", 1);
    assert Prefix("c", 1) == "c";
  }

  /**
   * Text without line feeds is cut into ceil(L / (m + 1)) chunks, where L is
   * its length and m the limit: one character in every m + 1 is dropped, so
   * there can be fewer chunks than ceil(L / m).
   */
  lemma {:induction false} ChunkCountWithoutLineFeeds(text: string, maxLength: nat)
    requires '\n' !in text
    ensures |text| <= |Chunks(text, maxLength)| * (maxLength + 1) < |text| + maxLength + 1
    decreases |text|
  {
    if text == [] {
    } else if |text| <= maxLength {
      LastPiece(text, maxLength);
    } else {
      var rest := text[maxLength + 1..];
      HardCutCount(text, maxLength);
      ChunkCountWithoutLineFeeds(rest, maxLength);
      CountStep(|text|, |rest|, |Chunks(text, maxLength)|, |Chunks(rest, maxLength)|, maxLength + 1);
    }
  }

  /** A non-empty text of at most `maxLength + 1` characters without line feeds is one chunk. */
  lemma LastPiece(text: string, maxLength: nat)
    requires 0 < |text| <= maxLength + 1 && '\n' !in text
    ensures |Chunks(text, maxLength)| == 1
  {
    assert LastNewline(text, maxLength) == 0;
    assert Remainder(text, maxLength) == [];
  }

  /** A hard cut of a text without line feeds: one chunk, and the rest has no line feed either. */
  lemma HardCutCount(text: string, maxLength: nat)
    requires maxLength < |text| && '\n' !in text
    ensures |Chunks(text, maxLength)| == 1 + |Chunks(text[maxLength + 1..], maxLength)|
    ensures '\n' !in text[maxLength + 1..]
  {
    HardCutDropsCharacter(text, maxLength);
    var rest := text[maxLength + 1..];
    forall k | 0 <= k < |rest| ensures rest[k] != '\n' {
      assert rest[k] == text[k + maxLength + 1];
    }
  }

  /** One more hard cut of `d` characters adds one chunk (`n` after `c`) and keeps the count bounds. */
  lemma CountStep(total: nat, rest: nat, n: nat, c: nat, d: nat)
    requires total == rest + d && n == c + 1
    requires rest <= c * d < rest + d
    ensures total <= n * d < total + d
  {
    assert n * d == c * d + d;
  }

  /**
   * A trailing line feed of the input is consumed, not emitted: the last step
   * either consumes it, or (when all that remains is that single line feed
   * and `maxLength >= 1`) emits the one-character chunk "\n".
   */
  lemma {:induction false} TrailingLineFeed(text: string, maxLength: nat)
    requires text != [] && text[|text| - 1] == '\n'
    ensures |Chunks(text, maxLength)| == |Gaps(text, maxLength)| >= 1
    ensures var last := |Gaps(text, maxLength)| - 1;
      Gaps(text, maxLength)[last] == "\n" || Chunks(text, maxLength)[last] == "\n"
    decreases |text|
  {
    Reconstruction(text, maxLength);
    var rest := Remainder(text, maxLength);
    var cs, gs := Chunks(text, maxLength), Gaps(text, maxLength);
    assert cs[1..] == Chunks(rest, maxLength);
    assert gs[1..] == Gaps(rest, maxLength);
    if rest != [] {
      assert rest[|rest| - 1] == text[|text| - 1];
      TrailingLineFeed(rest, maxLength);
    } else {
      var p := CutIndex(text, maxLength);
      var i := LastNewline(text, maxLength);
      assert |gs| == 1;
      if i != 0 {
        assert p == |text| - 1;
      } else if p < |text| {
        assert p == |text| - 1;
      } else {
        assert |text| == 1 by {
          if |text| > 1 {
            assert IsLineFeedAt(text, |text| - 1);
          }
        }
        assert cs[0] == text;
      }
    }
  }

  /**
   * A message that ends in a line feed and is at most one character over the
   * limit is sent whole, as one chunk, without that final line feed.
   */
  lemma ShortMessageIsOneChunk(text: string, maxLength: nat)
    requires 2 <= |text| <= maxLength + 1 && text[|text| - 1] == '\n'
    ensures Chunks(text, maxLength) == [text[..|text| - 1]]
  {
    var n := |text| - 1;
    assert LastNewline(text, maxLength) == n by {
      LastNewlineFinds(text, maxLength, n);
    }
    assert Remainder(text, maxLength) == [];
  }

  lemma {:induction false} LastNewlineFinds(text: string, maxLength: nat, n: nat)
    requires 0 < n <= maxLength && IsLineFeedAt(text, n)
    requires forall k :: n < k <= maxLength ==> !IsLineFeedAt(text, k)
    ensures LastNewline(text, maxLength) == n
    decreases maxLength
  {
    if maxLength > n {
      LastNewlineFinds(text, maxLength - 1, n);
    }
  }
}
