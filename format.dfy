/**
 * Formatting the sorted sections (index.js lines 216-237). The same loop
 * builds two texts: the chat message `content` and the `patchnotes.txt`
 * file. Each is a title line and a blank line, then, for every non-empty
 * section in key order, a heading, one line per note and a blank line;
 * every line ends in a line feed. The two texts differ only in decoration.
 */
module Format {
  import opened Text
  import opened Sections

  /** Which of the two texts is being built. */
  datatype Style = Chat | File

  /** The first line; the date (`Jun 6 2023`) is passed in rather than read from a clock. */
  function Title(style: Style, date: string): string {
    match style
    case Chat => "# RELEASE NOTES - " + date
    case File => "RELEASE NOTES - " + date
  }

  function Heading(style: Style, c: Category): string {
    match style
    case Chat => "**" + Name(c) + "**"
    case File => "*" + Name(c) + "*"
  }

  function Item(style: Style, line: string): string {
    match style
    case Chat => "- " + line
    case File => line
  }

  /** One line per note, in order. */
  function Items(style: Style, lines: seq<string>): seq<string> {
    if lines == [] then []
    else Items(style, lines[..|lines| - 1]) + [Item(style, lines[|lines| - 1])]
  }

  /** A section's lines: nothing at all when it is empty. */
  function Block(style: Style, c: Category, lines: seq<string>): seq<string> {
    if lines == [] then [] else [Heading(style, c)] + Items(style, lines) + [""]
  }

  /** The blocks of the categories `cs`, in that order. */
  function Body(style: Style, sections: Buckets, cs: seq<Category>): seq<string> {
    if cs == [] then []
    else Body(style, sections, cs[..|cs| - 1]) + Block(style, cs[|cs| - 1], sections.Get(cs[|cs| - 1]))
  }

  /** All lines of the text, without their line feeds. */
  function Layout(style: Style, sections: Buckets, date: string): seq<string> {
    [Title(style, date), ""] + Body(style, sections, Order)
  }

  /** The text itself. */
  function Render(style: Style, sections: Buckets, date: string): string {
    Terminated(Layout(style, sections, date))
  }

  /**
   * Builds the chat message and the file text together, appending line by
   * line as the source does.
   */
  method FormatNotes(sections: Buckets, date: string) returns (content: string, patchnotes: string)
    ensures content == Render(Chat, sections, date)
    ensures patchnotes == Render(File, sections, date)
  {
    var head := [Title(Chat, date), ""];
    var fileHead := [Title(File, date), ""];
    TitleLines(Chat, date);
    TitleLines(File, date);
    content := "# RELEASE NOTES - " + date + "\n\n";
    patchnotes := "RELEASE NOTES - " + date + "\n\n";
    assert Order[..0] == [];
    assert head + Body(Chat, sections, []) == head;
    assert fileHead + Body(File, sections, []) == fileHead;
    for k := 0 to |Order|
      invariant content == Terminated(head + Body(Chat, sections, Order[..k]))
      invariant patchnotes == Terminated(fileHead + Body(File, sections, Order[..k]))
    {
      var section := Order[k];
      SectionStep(Chat, sections, head, k);
      SectionStep(File, sections, fileHead, k);
      content, patchnotes := AppendSection(content, patchnotes, section, sections.Get(section));
    }
    assert Order[..|Order|] == Order;
  }

  lemma TitleLines(style: Style, date: string)
    ensures Terminated([Title(style, date), ""]) == Title(style, date) + "\n\n"
  {
    var t := Title(style, date);
    assert [t, ""] == [t] + [""];
    TerminatedSnoc([t], "");
    TerminatedSnoc([], t);
    assert [] + [t] == [t];
  }

  lemma SectionStep(style: Style, sections: Buckets, head: seq<string>, k: nat)
    requires k < |Order|
    ensures Terminated(head + Body(style, sections, Order[..k + 1]))
         == Terminated(head + Body(style, sections, Order[..k])) + Terminated(Block(style, Order[k], sections.Get(Order[k])))
  {
    var before := head + Body(style, sections, Order[..k]);
    var block := Block(style, Order[k], sections.Get(Order[k]));
    BodyStep(style, sections, Order, k);
    assert head + Body(style, sections, Order[..k + 1]) == before + block;
    TerminatedAppend(before, block);
  }

  lemma BodyStep(style: Style, sections: Buckets, cs: seq<Category>, k: nat)
    requires k < |cs|
    ensures Body(style, sections, cs[..k + 1]) == Body(style, sections, cs[..k]) + Block(style, cs[k], sections.Get(cs[k]))
  {
    assert cs[..k + 1][..k] == cs[..k];
  }

  lemma ItemsStep(lines: seq<string>, j: nat)
    requires j < |lines|
    ensures forall style :: Items(style, lines[..j + 1]) == Items(style, lines[..j]) + [Item(style, lines[j])]
  {
    assert lines[..j + 1][..j] == lines[..j];
  }

  /** The body of the loop over the sections: appends one section's block to both texts. */
  method AppendSection(content0: string, patchnotes0: string, section: Category, lines: seq<string>)
    returns (content: string, patchnotes: string)
    ensures content == content0 + Terminated(Block(Chat, section, lines))
    ensures patchnotes == patchnotes0 + Terminated(Block(File, section, lines))
  {
    content, patchnotes := content0, patchnotes0;
    if |lines| > 0 {
      AppendLine(content0, [], Heading(Chat, section));
      AppendLine(patchnotes0, [], Heading(File, section));
      content := content + ("**" + Name(section) + "**" + "\n");
      patchnotes := patchnotes + ("*" + Name(section) + "*" + "\n");
      for j := 0 to |lines|
        invariant content == content0 + Terminated([Heading(Chat, section)] + Items(Chat, lines[..j]))
        invariant patchnotes == patchnotes0 + Terminated([Heading(File, section)] + Items(File, lines[..j]))
      {
        ItemsStep(lines, j);
        ghost var written := [Heading(Chat, section)] + Items(Chat, lines[..j]);
        ghost var fileWritten := [Heading(File, section)] + Items(File, lines[..j]);
        assert [Heading(Chat, section)] + Items(Chat, lines[..j + 1]) == written + [Item(Chat, lines[j])];
        assert [Heading(File, section)] + Items(File, lines[..j + 1]) == fileWritten + [Item(File, lines[j])];
        AppendLine(content0, written, Item(Chat, lines[j]));
        AppendLine(patchnotes0, fileWritten, Item(File, lines[j]));
        content := content + ("- " + lines[j] + "\n");
        patchnotes := patchnotes + (lines[j] + "\n");
      }
      assert lines[..|lines|] == lines;
      AppendLine(content0, [Heading(Chat, section)] + Items(Chat, lines), "");
      AppendLine(patchnotes0, [Heading(File, section)] + Items(File, lines), "");
      content := content + "\n";
      patchnotes := patchnotes + "\n";
    }
  }

  // ---------------------------------------------------------------------------
  // What the chat message says

  lemma {:induction false} ItemsListNotes(lines: seq<string>, x: string)
    ensures ("- " + x) in Items(Chat, lines) <==> x in lines
    decreases |lines|
  {
    if lines != [] {
      var init := lines[..|lines| - 1];
      var last := lines[|lines| - 1];
      ItemsListNotes(init, x);
      assert lines == init + [last];
      if "- " + x == "- " + last {
        assert x == ("- " + x)[2..] == ("- " + last)[2..] == last;
      }
    }
  }

  lemma {:induction false} ItemsAreBullets(lines: seq<string>, y: string)
    requires y in Items(Chat, lines)
    ensures |y| >= 2 && y[0] == '-'
    decreases |lines|
  {
    if y != Item(Chat, lines[|lines| - 1]) {
      ItemsAreBullets(lines[..|lines| - 1], y);
    }
  }

  lemma BlockListsNote(c: Category, lines: seq<string>, x: string)
    ensures ("- " + x) in Block(Chat, c, lines) <==> x in lines
  {
    ItemsListNotes(lines, x);
    if lines != [] {
      assert ("- " + x)[0] == '-' && Heading(Chat, c)[0] == '*';
      assert Block(Chat, c, lines) == [Heading(Chat, c)] + Items(Chat, lines) + [""];
    }
  }

  /** A note is listed as a bullet in the blocks of `cs` exactly when one of them holds it. */
  lemma {:induction false} BodyListsNotes(sections: Buckets, cs: seq<Category>, x: string)
    ensures ("- " + x) in Body(Chat, sections, cs) <==> exists c :: c in cs && x in sections.Get(c)
    decreases |cs|
  {
    if cs != [] {
      var init := cs[..|cs| - 1];
      var c := cs[|cs| - 1];
      var block := Block(Chat, c, sections.Get(c));
      BodyListsNotes(sections, init, x);
      BlockListsNote(c, sections.Get(c), x);
      assert Body(Chat, sections, cs) == Body(Chat, sections, init) + block;
      if exists d :: d in cs && x in sections.Get(d) {
        var d :| d in cs && x in sections.Get(d);
        if d != c {
          assert d in init;
        }
      }
      if exists d :: d in init && x in sections.Get(d) {
        var d :| d in init && x in sections.Get(d);
        assert d in cs;
      }
    }
  }

  /** A heading appears in the blocks of `cs` exactly for the non-empty sections among `cs`. */
  lemma {:induction false} BodyHeadings(sections: Buckets, cs: seq<Category>, d: Category)
    ensures Heading(Chat, d) in Body(Chat, sections, cs) <==> d in cs && sections.Get(d) != []
    decreases |cs|
  {
    if cs != [] {
      var init := cs[..|cs| - 1];
      var c := cs[|cs| - 1];
      BodyHeadings(sections, init, d);
      BlockHeading(c, sections.Get(c), d);
      assert Body(Chat, sections, cs) == Body(Chat, sections, init) + Block(Chat, c, sections.Get(c));
      assert cs == init + [c];
    }
  }

  /** A section's block holds the heading of `d` exactly when it is the non-empty section `d`. */
  lemma BlockHeading(c: Category, lines: seq<string>, d: Category)
    ensures Heading(Chat, d) in Block(Chat, c, lines) <==> c == d && lines != []
  {
    if lines != [] {
      var h := Heading(Chat, d);
      assert h[0] == '*';
      assert Block(Chat, c, lines) == [Heading(Chat, c)] + Items(Chat, lines) + [""];
      if h in Items(Chat, lines) {
        ItemsAreBullets(lines, h);
      }
      HeadingsDistinct(c, d);
    }
  }

  lemma HeadingsDistinct(c: Category, d: Category)
    ensures Heading(Chat, c) == Heading(Chat, d) ==> c == d
  {
    if Heading(Chat, c) == Heading(Chat, d) {
      assert Name(c) == Heading(Chat, c)[2..|Heading(Chat, c)| - 2];
      assert Name(d) == Heading(Chat, d)[2..|Heading(Chat, d)| - 2];
    }
  }

  /**
   * Every added note appears in the chat message as a bullet line `- note`,
   * and every bullet line is a note of one of the five sections.
   */
  lemma ChatListsEveryNote(sections: Buckets, date: string, x: string)
    ensures ("- " + x) in Layout(Chat, sections, date) <==> exists c :: x in sections.Get(c)
  {
    var line := "- " + x;
    assert line[0] == '-';
    InChatBody(sections, date, line);
    BodyListsNotes(sections, Order, x);
    if exists c :: x in sections.Get(c) {
      var c :| x in sections.Get(c);
      AllInOrder(c);
    }
  }

  /** A section gets a heading in the chat message exactly when it is not empty. */
  lemma ChatHeadsNonEmptySections(sections: Buckets, date: string, c: Category)
    ensures Heading(Chat, c) in Layout(Chat, sections, date) <==> sections.Get(c) != []
  {
    assert Heading(Chat, c)[0] == '*';
    InChatBody(sections, date, Heading(Chat, c));
    BodyHeadings(sections, Order, c);
    AllInOrder(c);
  }

  /** A non-empty line that does not start like the title is in the message iff it is in its body. */
  lemma InChatBody(sections: Buckets, date: string, y: string)
    requires y != [] && y[0] != '#'
    ensures y in Layout(Chat, sections, date) <==> y in Body(Chat, sections, Order)
  {
    assert Title(Chat, date)[0] == '#';
    assert Layout(Chat, sections, date) == [Title(Chat, date), ""] + Body(Chat, sections, Order);
  }

  lemma AllInOrder(c: Category)
    ensures c in Order
  {
    match c
    case General => assert Order[0] == c;
    case Spells => assert Order[1] == c;
    case Perks => assert Order[2] == c;
    case BugFixes => assert Order[3] == c;
    case Modding => assert Order[4] == c;
  }

  /** With nothing added, both texts are the title line and a blank line. */
  lemma NothingAddedTitleOnly(sections: Buckets, date: string, style: Style)
    requires forall c :: sections.Get(c) == []
    ensures Render(style, sections, date) == Title(style, date) + "\n\n"
  {
    assert Body(style, sections, Order) == [] by {
      forall k: nat | k <= |Order| ensures Body(style, sections, Order[..k]) == [] {
        EmptyBody(style, sections, Order[..k]);
      }
      assert Order[..|Order|] == Order;
    }
    assert Layout(style, sections, date) == [Title(style, date), ""];
    TitleLines(style, date);
  }

  lemma {:induction false} EmptyBody(style: Style, sections: Buckets, cs: seq<Category>)
    requires forall c :: sections.Get(c) == []
    ensures Body(style, sections, cs) == []
    decreases |cs|
  {
    if cs != [] {
      EmptyBody(style, sections, cs[..|cs| - 1]);
    }
  }

  // ---------------------------------------------------------------------------
  // Reading the texts back

  lemma {:induction false} ItemsSingleLines(style: Style, lines: seq<string>)
    requires NoLineFeeds(lines)
    ensures NoLineFeeds(Items(style, lines))
    decreases |lines|
  {
    if lines != [] {
      var last := lines[|lines| - 1];
      ItemsSingleLines(style, lines[..|lines| - 1]);
      assert '\n' !in last;
      assert '\n' !in Item(style, last) by {
        if style == Chat {
          assert forall k :: 2 <= k < |Item(style, last)| ==> Item(style, last)[k] == last[k - 2];
        }
      }
    }
  }

  lemma HeadingSingleLine(style: Style, c: Category)
    ensures '\n' !in Heading(style, c)
  {
  }

  lemma {:induction false} BodySingleLines(style: Style, sections: Buckets, cs: seq<Category>)
    requires SingleLines(sections)
    ensures NoLineFeeds(Body(style, sections, cs))
    decreases |cs|
  {
    if cs != [] {
      var c := cs[|cs| - 1];
      var lines := sections.Get(c);
      BodySingleLines(style, sections, cs[..|cs| - 1]);
      assert NoLineFeeds(lines);
      ItemsSingleLines(style, lines);
      HeadingSingleLine(style, c);
    }
  }

  /**
   * When the date and the notes are single lines, splitting either text at
   * its line feeds gives back its lines, and a final "" after the last line feed.
   */
  lemma RenderSplitsIntoLayout(style: Style, sections: Buckets, date: string)
    requires '\n' !in date && SingleLines(sections)
    ensures SplitLines(Render(style, sections, date)) == Layout(style, sections, date) + [""]
  {
    BodySingleLines(style, sections, Order);
    var t := Title(style, date);
    assert '\n' !in t by {
      var lead := if style == Chat then "# RELEASE NOTES - " else "RELEASE NOTES - ";
      assert t == lead + date;
      assert forall k :: |lead| <= k < |t| ==> t[k] == date[k - |lead|];
    }
    SplitTerminated(Layout(style, sections, date));
  }
}
