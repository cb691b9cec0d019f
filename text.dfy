/**
 * The JavaScript string operations the bot relies on, as pure functions:
 * `split("\n")`, `trim()`, `startsWith`, `endsWith`, and `slice` with its
 * clamping of out-of-range indices.
 */
module Text {

  /** `s.startsWith(p)` */
  predicate StartsWith(s: string, p: string) {
    |p| <= |s| && s[..|p|] == p
  }

  /** `s.endsWith(p)` */
  predicate EndsWith(s: string, p: string) {
    |p| <= |s| && s[|s| - |p|..] == p
  }

  function Min(a: nat, b: nat): nat {
    if a <= b then a else b
  }

  /** `s.slice(0, n)`: an end index past the string is clamped to its length. */
  function Prefix(s: string, n: nat): (r: string)
    ensures |r| == Min(n, |s|) && r == s[..|r|]
  {
    s[..Min(n, |s|)]
  }

  /** `s.slice(n)`: a start index past the string gives the empty string. */
  function Suffix(s: string, n: nat): (r: string)
    ensures |r| == |s| - Min(n, |s|) && r == s[|s| - |r|..]
  {
    s[Min(n, |s|)..]
  }

  // ---------------------------------------------------------------------------
  // split("\n") and its inverse

  /** `s.split("\n")`: the pieces between line feeds; "" splits into [""]. */
  function SplitLines(s: string): (r: seq<string>)
    ensures |r| >= 1
    ensures forall i :: 0 <= i < |r| ==> '\n' !in r[i]
    decreases |s|
  {
    if s == [] then [""]
    else
      var rest := SplitLines(s[1..]);
      if s[0] == '\n' then [""] + rest
      else [[s[0]] + rest[0]] + rest[1..]
  }

  /** `xs.join("\n")` */
  function JoinLines(xs: seq<string>): string
    requires |xs| >= 1
  {
    if |xs| == 1 then xs[0] else xs[0] + "\n" + JoinLines(xs[1..])
  }

  /** Every line followed by a line feed: the shape of text built by `+= line + "\n"`. */
  function Terminated(xs: seq<string>): string {
    if xs == [] then "" else xs[0] + "\n" + Terminated(xs[1..])
  }

  predicate NoLineFeeds(xs: seq<string>) {
    forall i :: 0 <= i < |xs| ==> '\n' !in xs[i]
  }

  /** Joining the pieces of a split gives back the text. */
  lemma {:induction false} JoinSplit(s: string)
    ensures JoinLines(SplitLines(s)) == s
    decreases |s|
  {
    if s != [] {
      var rest := SplitLines(s[1..]);
      JoinSplit(s[1..]);
      if s[0] == '\n' {
        assert SplitLines(s) == [""] + rest;
        assert JoinLines(SplitLines(s)) == "" + "\n" + JoinLines(rest);
        assert s == [s[0]] + s[1..];
      } else {
        assert SplitLines(s) == [[s[0]] + rest[0]] + rest[1..];
        if |rest| == 1 {
          assert JoinLines(SplitLines(s)) == [s[0]] + rest[0];
          assert s == [s[0]] + s[1..];
        } else {
          assert JoinLines(rest) == rest[0] + "\n" + JoinLines(rest[1..]);
          assert JoinLines(SplitLines(s)) == ([s[0]] + rest[0]) + "\n" + JoinLines(rest[1..]);
          assert s == [s[0]] + s[1..];
        }
      }
    }
  }

  lemma {:induction false} SplitWithoutLineFeed(x: string)
    requires '\n' !in x
    ensures SplitLines(x) == [x]
    decreases |x|
  {
    if x != [] {
      assert '\n' !in x[1..] by {
        forall k | 0 <= k < |x[1..]| ensures x[1..][k] != '\n' { assert x[1..][k] == x[k + 1]; }
      }
      SplitWithoutLineFeed(x[1..]);
      assert [x[0]] + x[1..] == x;
    }
  }

  lemma {:induction false} SplitFirstLine(x: string, t: string)
    requires '\n' !in x
    ensures SplitLines(x + "\n" + t) == [x] + SplitLines(t)
    decreases |x|
  {
    if x == [] {
      assert x + "\n" + t == "\n" + t;
      assert ("\n" + t)[1..] == t;
    } else {
      var s := x + "\n" + t;
      assert s[1..] == x[1..] + "\n" + t;
      assert '\n' !in x[1..] by {
        forall k | 0 <= k < |x[1..]| ensures x[1..][k] != '\n' { assert x[1..][k] == x[k + 1]; }
      }
      SplitFirstLine(x[1..], t);
      assert s[0] == x[0];
      assert [x[0]] + x[1..] == x;
    }
  }

  /** Splitting text joined from line-feed-free pieces gives back the pieces. */
  lemma {:induction false} SplitJoin(xs: seq<string>)
    requires |xs| >= 1 && NoLineFeeds(xs)
    ensures SplitLines(JoinLines(xs)) == xs
    decreases |xs|
  {
    if |xs| == 1 {
      SplitWithoutLineFeed(xs[0]);
    } else {
      assert '\n' !in xs[0];
      SplitJoin(xs[1..]);
      SplitFirstLine(xs[0], JoinLines(xs[1..]));
      assert [xs[0]] + xs[1..] == xs;
    }
  }

  lemma {:induction false} TerminatedIsJoin(xs: seq<string>)
    ensures Terminated(xs) == JoinLines(xs + [""])
    decreases |xs|
  {
    if xs != [] {
      TerminatedIsJoin(xs[1..]);
      assert (xs + [""])[1..] == xs[1..] + [""];
    }
  }

  lemma {:induction false} TerminatedAppend(xs: seq<string>, ys: seq<string>)
    ensures Terminated(xs + ys) == Terminated(xs) + Terminated(ys)
    decreases |xs|
  {
    if xs == [] {
      assert xs + ys == ys;
    } else {
      assert (xs + ys)[1..] == xs[1..] + ys;
      TerminatedAppend(xs[1..], ys);
    }
  }

  /** Appending `y + "\n"` to terminated text terminates one more line. */
  lemma TerminatedSnoc(xs: seq<string>, y: string)
    ensures Terminated(xs + [y]) == Terminated(xs) + y + "\n"
  {
    TerminatedAppend(xs, [y]);
    assert Terminated([y]) == y + "\n" + Terminated([]);
  }

  /** Appending one more line to text that ends in terminated lines. */
  lemma AppendLine(prefix: string, xs: seq<string>, y: string)
    ensures prefix + Terminated(xs + [y]) == (prefix + Terminated(xs)) + (y + "\n")
  {
    TerminatedSnoc(xs, y);
  }

  /** Text made of line-feed-terminated lines splits into those lines and a final "". */
  lemma SplitTerminated(xs: seq<string>)
    requires NoLineFeeds(xs)
    ensures SplitLines(Terminated(xs)) == xs + [""]
  {
    TerminatedIsJoin(xs);
    assert NoLineFeeds(xs + [""]) by {
      forall i | 0 <= i < |xs + [""]| ensures '\n' !in (xs + [""])[i] {
        if i < |xs| { assert (xs + [""])[i] == xs[i]; }
      }
    }
    SplitJoin(xs + [""]);
  }

  // ---------------------------------------------------------------------------
  // trim()

  /**
   * The code points `String.prototype.trim` removes: ECMAScript's WhiteSpace
   * (tab, vertical tab, form feed, space, no-break space, byte order mark and
   * the Unicode "Zs" space separators) and LineTerminator (line feed,
   * carriage return, line and paragraph separators).
   */
  predicate IsJsWhitespace(c: char) {
    || c == '\t' || c == '\U{000B}' || c == '\U{000C}' || c == ' '
    || c == '\U{00A0}' || c == '\U{FEFF}' || c == '\U{1680}'
    || ('\U{2000}' <= c <= '\U{200A}')
    || c == '\U{202F}' || c == '\U{205F}' || c == '\U{3000}'
    || c == '\n' || c == '\r' || c == '\U{2028}' || c == '\U{2029}'
  }

  function TrimStart(s: string): (r: string)
    ensures |r| <= |s|
    decreases |s|
  {
    if s != [] && IsJsWhitespace(s[0]) then TrimStart(s[1..]) else s
  }

  function TrimEnd(s: string): (r: string)
    ensures |r| <= |s|
    decreases |s|
  {
    if s != [] && IsJsWhitespace(s[|s| - 1]) then TrimEnd(s[..|s| - 1]) else s
  }

  /** `s.trim()`: never longer than `s`, and the identity on a line without surrounding whitespace. */
  function Trim(s: string): (r: string)
    ensures |r| <= |s|
    ensures (s == [] || (!IsJsWhitespace(s[0]) && !IsJsWhitespace(s[|s| - 1]))) ==> r == s
  {
    TrimEnd(TrimStart(s))
  }

  /** `trimStart` removes the whitespace head of `s` and nothing else. */
  lemma {:induction false} TrimStartShape(s: string)
    ensures |TrimStart(s)| <= |s| && TrimStart(s) == s[|s| - |TrimStart(s)|..]
    ensures forall k :: 0 <= k < |s| - |TrimStart(s)| ==> IsJsWhitespace(s[k])
    ensures TrimStart(s) == [] || !IsJsWhitespace(TrimStart(s)[0])
    decreases |s|
  {
    if s != [] && IsJsWhitespace(s[0]) {
      TrimStartShape(s[1..]);
      forall k | 0 < k < |s| - |TrimStart(s)| ensures IsJsWhitespace(s[k]) {
        assert s[k] == s[1..][k - 1];
      }
    }
  }

  /** `trimEnd` removes the whitespace tail of `s` and nothing else. */
  lemma {:induction false} TrimEndShape(s: string)
    ensures |TrimEnd(s)| <= |s| && TrimEnd(s) == s[..|TrimEnd(s)|]
    ensures forall k :: |TrimEnd(s)| <= k < |s| ==> IsJsWhitespace(s[k])
    ensures TrimEnd(s) == [] || !IsJsWhitespace(TrimEnd(s)[|TrimEnd(s)| - 1])
    decreases |s|
  {
    if s != [] && IsJsWhitespace(s[|s| - 1]) {
      TrimEndShape(s[..|s| - 1]);
      forall k | |TrimEnd(s)| <= k < |s| - 1 ensures IsJsWhitespace(s[k]) {
        assert s[k] == s[..|s| - 1][k];
      }
    }
  }

  /** What `trim()` leaves neither starts nor ends with whitespace. */
  lemma TrimEnds(s: string)
    ensures Trim(s) == [] || (!IsJsWhitespace(Trim(s)[0]) && !IsJsWhitespace(Trim(s)[|Trim(s)| - 1]))
  {
    TrimStartShape(s);
    TrimEndShape(TrimStart(s));
    TrimFront(Trim(s), TrimStart(s));
  }

  /** How many whitespace characters `trim()` removes from the front of `s`. */
  function LeadingSpace(s: string): nat {
    |s| - |TrimStart(s)|
  }

  /**
   * `trim()` removes exactly the surrounding whitespace: the result is the
   * part of `s` between a whitespace-only head and a whitespace-only tail.
   */
  lemma TrimShape(s: string)
    ensures LeadingSpace(s) + |Trim(s)| <= |s|
    ensures s[LeadingSpace(s)..LeadingSpace(s) + |Trim(s)|] == Trim(s)
    ensures forall k :: 0 <= k < LeadingSpace(s) ==> IsJsWhitespace(s[k])
    ensures forall k :: LeadingSpace(s) + |Trim(s)| <= k < |s| ==> IsJsWhitespace(s[k])
  {
    var t := TrimStart(s);
    var r := TrimEnd(t);
    var lead := |s| - |t|;
    TrimStartShape(s);
    TrimEndShape(t);
    assert Trim(s) == r;
    assert LeadingSpace(s) == lead;
    TrimTail(s, t, r);
  }

  lemma TrimFront(r: string, t: string)
    requires r == TrimEnd(t) && (t == [] || !IsJsWhitespace(t[0]))
    ensures r == [] || !IsJsWhitespace(r[0])
  {
    TrimEndShape(t);
    if r != [] {
      assert r[0] == t[0];
    }
  }

  lemma TrimTail(s: string, t: string, r: string)
    requires |t| <= |s| && t == s[|s| - |t|..]
    requires |r| <= |t| && r == t[..|r|]
    requires forall k :: |r| <= k < |t| ==> IsJsWhitespace(t[k])
    ensures s[|s| - |t|..|s| - |t| + |r|] == r
    ensures forall k :: |s| - |t| + |r| <= k < |s| ==> IsJsWhitespace(s[k])
  {
    var lead := |s| - |t|;
    forall k | lead + |r| <= k < |s| ensures IsJsWhitespace(s[k]) {
      assert s[k] == t[k - lead];
    }
  }
}
