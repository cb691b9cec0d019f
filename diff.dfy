/**
 * The lines added to a branch's release notes: `difference(new Set(newLines),
 * new Set(oldLines))` in index.js, copied into the `differences` array.
 * A JavaScript `Set` iterates in insertion order, so a set is modelled as the
 * sequence of its elements in that order, without duplicates.
 */
module Diff {
  import opened Text

  predicate NoDuplicates(s: seq<string>) {
    forall i, j :: 0 <= i < j < |s| ==> s[i] != s[j]
  }

  /** `new Set(s)`: each element once, where it first occurs. */
  function Dedup(s: seq<string>): (r: seq<string>)
    ensures NoDuplicates(r)
    ensures forall x {:trigger x in r} :: x in r <==> x in s
    decreases |s|
  {
    if s == [] then []
    else
      var d := Dedup(s[..|s| - 1]);
      if s[|s| - 1] in d then d else d + [s[|s| - 1]]
  }

  /** The elements of `a` that are not in `b`, in the order of `a`. */
  function Without(a: seq<string>, b: seq<string>): (r: seq<string>)
    ensures forall x {:trigger x in r} :: x in r <==> x in a && x !in b
    ensures |r| <= |a|
    decreases |a|
  {
    if a == [] then []
    else Without(a[..|a| - 1], b) + (if a[|a| - 1] in b then [] else [a[|a| - 1]])
  }

  /** `difference(setA, setB)`: copy `setA`, then delete every element of `setB` from the copy. */
  method Difference(setA: seq<string>, setB: seq<string>) returns (result: seq<string>)
    ensures result == Without(setA, setB)
  {
    result := setA;
    WithoutNothing(setA);
    for i := 0 to |setB|
      invariant result == Without(setA, setB[..i])
    {
      WithoutMore(setA, setB[..i], setB[i]);
      assert setB[..i + 1] == setB[..i] + [setB[i]];
      result := Without(result, [setB[i]]);
    }
    assert setB[..|setB|] == setB;
  }

  lemma {:induction false} WithoutNothing(a: seq<string>)
    ensures Without(a, []) == a
    decreases |a|
  {
    if a != [] {
      WithoutNothing(a[..|a| - 1]);
    }
  }

  /** Deleting one more element from a difference is the difference with one more element. */
  lemma {:induction false} WithoutMore(a: seq<string>, b: seq<string>, x: string)
    ensures Without(Without(a, b), [x]) == Without(a, b + [x])
    decreases |a|
  {
    if a != [] {
      var a' := a[..|a| - 1];
      var last := a[|a| - 1];
      WithoutMore(a', b, x);
      var w := Without(a', b);
      assert (last in b + [x]) == (last in b || last == x);
      assert Without(a, b + [x]) == Without(a', b + [x]) + (if last in b + [x] then [] else [last]);
      if last !in b {
        assert Without(a, b) == w + [last];
        assert (w + [last])[..|w + [last]| - 1] == w;
        assert Without(w + [last], [x]) == Without(w, [x]) + (if last in [x] then [] else [last]);
      } else {
        assert Without(a, b) == w + [];
        assert w + [] == w;
        assert Without(a, b + [x]) == Without(a', b + [x]) + [];
      }
    }
  }

  /** The lines of the new release notes that do not occur anywhere in the old ones. */
  function AddedLines(oldNotes: string, newNotes: string): seq<string> {
    Without(Dedup(SplitLines(newNotes)), Dedup(SplitLines(oldNotes)))
  }

  /** index.js lines 162-174: split both files, take the set difference, collect it in order. */
  method AddedReleaseNotes(oldNotes: string, newNotes: string) returns (differences: seq<string>)
    ensures differences == AddedLines(oldNotes, newNotes)
  {
    var oldContentLines := SplitLines(oldNotes);
    var newContentLines := SplitLines(newNotes);
    var addedLines := Difference(Dedup(newContentLines), Dedup(oldContentLines));
    differences := [];
    for i := 0 to |addedLines|
      invariant differences == addedLines[..i]
    {
      differences := differences + [addedLines[i]];
    }
    assert addedLines[..|addedLines|] == addedLines;
  }

  /**
   * A line is reported exactly when it is a line of the new notes and not a
   * line of the old ones, compared as whole strings; and it is reported once.
   */
  lemma AddedLinesMembers(oldNotes: string, newNotes: string, line: string)
    ensures line in AddedLines(oldNotes, newNotes) <==> line in SplitLines(newNotes) && line !in SplitLines(oldNotes)
    ensures NoDuplicates(AddedLines(oldNotes, newNotes))
  {
    WithoutKeepsDistinct(Dedup(SplitLines(newNotes)), Dedup(SplitLines(oldNotes)));
  }

  lemma {:induction false} WithoutKeepsDistinct(a: seq<string>, b: seq<string>)
    requires NoDuplicates(a)
    ensures NoDuplicates(Without(a, b))
    decreases |a|
  {
    if a != [] {
      var a' := a[..|a| - 1];
      WithoutKeepsDistinct(a', b);
      var w := Without(a', b);
      assert a[|a| - 1] !in a';
      assert a[|a| - 1] !in w;
      if a[|a| - 1] !in b {
        var r := w + [a[|a| - 1]];
        forall i, j | 0 <= i < j < |r| ensures r[i] != r[j] {
          if j == |w| { assert r[i] in w; }
        }
      }
    }
  }

  /** Which elements are removed depends only on which elements `b` has. */
  lemma {:induction false} WithoutSameMembers(a: seq<string>, b: seq<string>, c: seq<string>)
    requires forall x :: x in b <==> x in c
    ensures Without(a, b) == Without(a, c)
    decreases |a|
  {
    if a != [] {
      WithoutSameMembers(a[..|a| - 1], b, c);
    }
  }

  /** Taking the difference first and removing duplicates afterwards gives the same lines. */
  lemma {:induction false} DedupWithout(n: seq<string>, o: seq<string>)
    ensures Without(Dedup(n), o) == Dedup(Without(n, o))
    decreases |n|
  {
    if n != [] {
      var n' := n[..|n| - 1];
      var x := n[|n| - 1];
      DedupWithout(n', o);
      var w := Without(n', o);
      if x in o {
        assert Without(n, o) == w;
        if x !in Dedup(n') {
          var d := Dedup(n');
          assert (d + [x])[..|d + [x]| - 1] == d;
        }
      } else {
        assert Without(n, o) == w + [x];
        assert (w + [x])[..|w + [x]| - 1] == w;
        if x !in Dedup(n') {
          var d := Dedup(n');
          assert (d + [x])[..|d + [x]| - 1] == d;
        }
      }
    }
  }

  /**
   * The reported lines are the new file's lines that the old file lacks,
   * each kept at its first occurrence: a line that occurs in the old notes is
   * never reported, however often it repeats in the new ones.
   */
  lemma AddedLinesAreNewLinesInOrder(oldNotes: string, newNotes: string)
    ensures AddedLines(oldNotes, newNotes) == Dedup(Without(SplitLines(newNotes), SplitLines(oldNotes)))
  {
    var n, o := SplitLines(newNotes), SplitLines(oldNotes);
    WithoutSameMembers(Dedup(n), Dedup(o), o);
    DedupWithout(n, o);
  }

  /** Index of the first occurrence of `x` in `s`. */
  function FirstIndex(s: seq<string>, x: string): (i: nat)
    requires x in s
    ensures i < |s| && s[i] == x && x !in s[..i]
  {
    if s[0] == x then 0 else 1 + FirstIndex(s[1..], x)
  }

  /** The elements of `r` occur in `s`, in the order of their first occurrences in `s`. */
  predicate InFirstOccurrenceOrder(r: seq<string>, s: seq<string>) {
    forall i, j :: 0 <= i < j < |r| ==> r[i] in s && r[j] in s && FirstIndex(s, r[i]) < FirstIndex(s, r[j])
  }

  lemma FirstIndexInPrefix(s: seq<string>, x: string)
    requires s != [] && x in s[..|s| - 1]
    ensures FirstIndex(s, x) == FirstIndex(s[..|s| - 1], x)
  {
    var i := FirstIndex(s[..|s| - 1], x);
    assert s[..i] == s[..|s| - 1][..i];
    var j := FirstIndex(s, x);
  }

  lemma {:induction false} DedupOrdered(s: seq<string>)
    ensures InFirstOccurrenceOrder(Dedup(s), s)
    decreases |s|
  {
    if s != [] {
      var s' := s[..|s| - 1];
      var x := s[|s| - 1];
      var d := Dedup(s');
      DedupOrdered(s');
      forall y | y in d ensures y in s && FirstIndex(s, y) == FirstIndex(s', y) && FirstIndex(s, y) < |s| - 1 {
        FirstIndexInPrefix(s, y);
      }
      assert InFirstOccurrenceOrder(d, s) by {
        forall i, j | 0 <= i < j < |d|
          ensures d[i] in s && d[j] in s && FirstIndex(s, d[i]) < FirstIndex(s, d[j])
        {
          assert d[i] in d && d[j] in d;
        }
      }
      if x !in d {
        assert x !in s';
        assert FirstIndex(s, x) == |s| - 1;
        OrderSnoc(d, x, s);
      }
    }
  }

  /** Appending an element whose first occurrence comes after all of theirs keeps the order. */
  lemma OrderSnoc(w: seq<string>, x: string, s: seq<string>)
    requires InFirstOccurrenceOrder(w, s)
    requires forall y :: y in w ==> y in s && x in s && FirstIndex(s, y) < FirstIndex(s, x)
    ensures InFirstOccurrenceOrder(w + [x], s)
  {
    var r := w + [x];
    forall i, j | 0 <= i < j < |r|
      ensures r[i] in s && r[j] in s && FirstIndex(s, r[i]) < FirstIndex(s, r[j])
    {
      assert r[i] == w[i] && w[i] in w;
      if j < |w| { assert r[j] == w[j]; }
    }
  }

  lemma {:induction false} WithoutOrdered(a: seq<string>, b: seq<string>, s: seq<string>)
    requires InFirstOccurrenceOrder(a, s)
    ensures InFirstOccurrenceOrder(Without(a, b), s)
    decreases |a|
  {
    if a != [] {
      var a' := a[..|a| - 1];
      var x := a[|a| - 1];
      assert InFirstOccurrenceOrder(a', s) by {
        forall i, j | 0 <= i < j < |a'|
          ensures a'[i] in s && a'[j] in s && FirstIndex(s, a'[i]) < FirstIndex(s, a'[j])
        {
          assert a'[i] == a[i] && a'[j] == a[j];
        }
      }
      WithoutOrdered(a', b, s);
      var w := Without(a', b);
      if x in b {
        assert Without(a, b) == w + [];
        assert w + [] == w;
      } else {
        assert Without(a, b) == w + [x];
        forall y | y in w ensures y in s && x in s && FirstIndex(s, y) < FirstIndex(s, x) {
          var k :| 0 <= k < |a'| && a'[k] == y;
          assert a[k] == y && a[|a| - 1] == x;
        }
        OrderSnoc(w, x, s);
      }
    }
  }

  /** Added lines are listed in the order in which they first appear in the new notes. */
  lemma AddedLinesOrder(oldNotes: string, newNotes: string)
    ensures InFirstOccurrenceOrder(AddedLines(oldNotes, newNotes), SplitLines(newNotes))
  {
    DedupOrdered(SplitLines(newNotes));
    WithoutOrdered(Dedup(SplitLines(newNotes)), Dedup(SplitLines(oldNotes)), SplitLines(newNotes));
  }

  lemma SplitThree(a: string, b: string, c: string)
    requires '\n' !in a && '\n' !in b && '\n' !in c
    ensures SplitLines(a + "\n" + b + "\n" + c) == [a, b, c]
  {
    SplitWithoutLineFeed(c);
    SplitFirstLine(b, c);
    SplitFirstLine(a, b + "\n" + c);
    assert a + "\n" + b + "\n" + c == a + "\n" + (b + "\n" + c);
  }

  lemma SplitFour()
    ensures SplitLines("A\nB\nD\nE") == ["A", "B", "D", "E"]
  {
    SplitThree("B", "D", "E");
    SplitFirstLine("A", "B\nD\nE");
    assert "A\nB\nD\nE" == "A" + "\n" + ("B" + "\n" + "D" + "\n" + "E");
  }

  lemma WithoutFour()
    ensures Without(["A", "B", "D", "E"], ["A", "B", "C"]) == ["D", "E"]
  {
    var n, o := ["A", "B", "D", "E"], ["A", "B", "C"];
    assert "D" !in o && "E" !in o && "A" in o && "B" in o;
    assert n[..3] == ["A", "B", "D"] && n[..3][..2] == ["A", "B"] && n[..3][..2][..1] == ["A"];
    assert Without([], o) == [];
    assert Without(["A"], o) == [];
    assert Without(["A", "B"], o) == [];
    assert Without(["A", "B", "D"], o) == ["D"];
  }

  /** Two lines replaced by others: both new lines are reported, in order. */
  lemma ExampleReplacedLines()
    ensures AddedLines("A\nB\nC", "A\nB\nD\nE") == ["D", "E"]
  {
    SplitThree("A", "B", "C");
    assert "A\nB\nC" == "A" + "\n" + "B" + "\n" + "C";
    var n, o := ["A", "B", "D", "E"], ["A", "B", "C"];
    SplitFour();
    AddedLinesAreNewLinesInOrder("A\nB\nC", "A\nB\nD\nE");
    WithoutFour();
    assert ["D", "E"][..1] == ["D"];
    assert Dedup(["D"]) == ["D"];
  }

  /**
   * A line the old notes already had is not reported, however often the new
   * notes repeat it; a new line is reported once.
   */
  lemma RepeatedLine(a: string, b: string)
    requires '\n' !in a && '\n' !in b && a != b
    ensures AddedLines(a, a + "\n" + a + "\n" + b) == [b]
  {
    SplitWithoutLineFeed(a);
    SplitThree(a, a, b);
    var n := [a, a, b];
    AddedLinesAreNewLinesInOrder(a, a + "\n" + a + "\n" + b);
    assert n[..2] == [a, a] && n[..2][..1] == [a];
    assert Without([], [a]) == [];
    assert Without([a], [a]) == [];
    assert Without([a, a], [a]) == [];
    assert Without(n, [a]) == [b];
    assert Dedup([b]) == [b] by { assert [b][..0] == []; }
  }

  /** Lines compare as whole strings: a line that differs only by a leading space is reported. */
  lemma NoTrimming(line: string)
    requires '\n' !in line
    ensures AddedLines(line, " " + line) == [" " + line]
  {
    var indented := " " + line;
    assert '\n' !in indented by {
      forall k | 0 <= k < |indented| ensures indented[k] != '\n' {
        if k > 0 { assert indented[k] == line[k - 1]; }
      }
    }
    SplitWithoutLineFeed(line);
    SplitWithoutLineFeed(indented);
    assert AddedLines(line, indented) == Without(Dedup([indented]), Dedup([line]));
    SingleLine(indented);
    SingleLine(line);
    assert indented !in [line] by { assert |indented| != |line|; }
    assert Without([indented], [line]) == [indented] by { assert [indented][..0] == []; }
  }

  lemma SingleLine(x: string)
    ensures Dedup([x]) == [x]
  {
    assert [x][..0] == [];
  }
}
