/**
 * One run of `main` (index.js lines 78-285): for each branch SteamCMD reports,
 * compare its build with the stored one, record it, and then, depending on
 * whether it changed, whether it is password-locked and whether it is the
 * beta after a public update, download it, rotate its `new`/`old` install
 * directories and announce it, with the added release notes when both
 * installs have a `_release_notes.txt`.
 *
 * The outside world appears as data: SteamCMD's answer is a sequence of
 * `Branch` records (carrying the release notes the download would install),
 * the install directories are two optional slots per branch, the date is a
 * string, and everything the bot does outside its own state is an `Action`.
 */
module Pipeline {
  import opened Wrappers
  import opened Text
  import opened Chunking
  import opened Diff
  import opened Sections
  import opened Format

  /** The chunk size passed to `splitStringAtNewLine`: Discord's message length limit. */
  const MessageLimit: nat := 2000

  /**
   * One entry of `data.depots.branches`: its key, `buildid`, `timeupdated`,
   * whether `pwdrequired` is present, and the `_release_notes.txt` that
   * installing this build puts in the install directory (None when it has none).
   */
  datatype Branch = Branch(name: string, buildid: string, timeupdated: int,
                           passwordLocked: bool, releaseNotes: Option<string>)

  /** The record `saved_branches` keeps per branch. */
  datatype Saved = Saved(buildid: string, timeupdated: int)

  /** An install directory; only its `_release_notes.txt` matters here. */
  datatype Install = Install(releaseNotes: Option<string>)

  /** `branches/<name>/old` and `branches/<name>/new`, each present or not. */
  datatype Dirs = Dirs(oldDir: Option<Install>, newDir: Option<Install>)

  /** What the bot does to the world outside its state, in order. */
  datatype Action =
    | UpToDate(branch: string)                      // "Branch … is up to date" log line
    | Skipped(branch: string)                       // beta skipped after a public update
    | Download(branch: string, args: seq<string>)   // steamcmd.updateApp into `new`
    | WritePatchNotes(branch: string, text: string) // branches/<name>/patchnotes.txt
    | Announce(branch: string)                      // embed "Branch … has been updated"
    | Post(chunk: string)                           // one message of release notes

  /** The state threaded through the loop over the branches, and the actions so far. */
  datatype Pass = Pass(saved: map<string, Saved>, disk: map<string, Dirs>,
                       publicUpdated: bool, actions: seq<Action>)

  /** A branch without a directory has neither slot. */
  function DirsOf(disk: map<string, Dirs>, name: string): Dirs {
    if name in disk then disk[name] else Dirs(None, None)
  }

  /** `was_branch_updated`: the branch is new, or its stored `buildid` differs. */
  predicate IsUpdated(saved: map<string, Saved>, b: Branch) {
    b.name !in saved || saved[b.name].buildid != b.buildid
  }

  /** The extra SteamCMD arguments: none for "public", `-beta <name>` otherwise. */
  function InstallArgs(name: string): seq<string> {
    if name != "public" then ["-beta " + name] else []
  }

  function Posts(chunks: seq<string>): (r: seq<Action>)
    ensures |r| == |chunks| && forall i :: 0 <= i < |r| ==> r[i] == Post(chunks[i])
  {
    if chunks == [] then [] else [Post(chunks[0])] + Posts(chunks[1..])
  }

  /** The sections of the lines added between two release-notes files. */
  function NotesSections(oldNotes: string, newNotes: string): Buckets {
    Sorted(AddedLines(oldNotes, newNotes))
  }

  /** The chat message announcing the lines added between two notes files. */
  function Message(oldNotes: string, newNotes: string, date: string): string {
    Render(Chat, NotesSections(oldNotes, newNotes), date)
  }

  /** The text of `patchnotes.txt` for the same lines. */
  function PatchNotesText(oldNotes: string, newNotes: string, date: string): string {
    Render(File, NotesSections(oldNotes, newNotes), date)
  }

  /** Write the file, send the title, then send the message in chunks. */
  function Publication(name: string, patchnotes: string, message: string): seq<Action> {
    [WritePatchNotes(name, patchnotes), Announce(name)] + Posts(Chunks(message, MessageLimit))
  }

  /** What follows a download when an `old` install exists. */
  function AfterDownload(name: string, previous: Install, installed: Install, date: string): seq<Action> {
    if previous.releaseNotes.Some? && installed.releaseNotes.Some? then
      var oldNotes, newNotes := previous.releaseNotes.value, installed.releaseNotes.value;
      Publication(name, PatchNotesText(oldNotes, newNotes, date), Message(oldNotes, newNotes, date))
    else
      [Announce(name)]
  }

  /** One iteration of the loop over the branches. */
  function Visit(p: Pass, b: Branch, date: string): Pass {
    if !IsUpdated(p.saved, b) then
      p.(actions := p.actions + [UpToDate(b.name)])
    else
      var q := p.(saved := p.saved[b.name := Saved(b.buildid, b.timeupdated)]);
      if b.passwordLocked then
        q.(actions := q.actions + [Announce(b.name)])
      else if b.name == "noitabeta" && q.publicUpdated then
        q.(actions := q.actions + [Skipped(b.name)])
      else
        InstallBranch(q, b, date)
  }

  /** Rotation, download and what follows, for a changed unlocked branch that is not skipped. */
  function InstallBranch(p: Pass, b: Branch, date: string): Pass {
    var previous := DirsOf(p.disk, b.name).newDir;
    var installed := Install(b.releaseNotes);
    var disk := p.disk[b.name := Dirs(previous, Some(installed))];
    var download := [Download(b.name, InstallArgs(b.name))];
    var followUp := if previous.Some? then AfterDownload(b.name, previous.value, installed, date) else [];
    Pass(p.saved, disk, p.publicUpdated || b.name == "public", p.actions + download + followUp)
  }

  /** The loop over the branches, in SteamCMD's key order. */
  function Run(p: Pass, branches: seq<Branch>, date: string): Pass {
    if branches == [] then p
    else Visit(Run(p, branches[..|branches| - 1], date), branches[|branches| - 1], date)
  }

  /** One call of `main`: `was_public_updated` starts false and no actions are done yet. */
  function Tick(saved: map<string, Saved>, disk: map<string, Dirs>, branches: seq<Branch>, date: string): Pass {
    Run(Pass(saved, disk, false, []), branches, date)
  }

  /** The bot's persistent state: the `saved_branches` store and the install directories. */
  class UpdateBot {
    var saved: map<string, Saved>
    var disk: map<string, Dirs>

    constructor(stored: map<string, Saved>, dirs: map<string, Dirs>)
      ensures saved == stored && disk == dirs
    {
      saved := stored;
      disk := dirs;
    }

    /** `main`, which the bot runs once a minute: visits every branch in order and returns what it did. */
    method Poll(branches: seq<Branch>, date: string) returns (actions: seq<Action>)
      modifies this
      ensures var r := Tick(old(saved), old(disk), branches, date);
              saved == r.saved && disk == r.disk && actions == r.actions
    {
      ghost var start := Pass(saved, disk, false, []);
      var wasPublicUpdated := false;
      actions := [];
      for i := 0 to |branches|
        invariant Pass(saved, disk, wasPublicUpdated, actions) == Run(start, branches[..i], date)
      {
        assert branches[..i + 1][..i] == branches[..i];
        wasPublicUpdated, actions := VisitBranch(branches[i], date, wasPublicUpdated, actions);
      }
      assert branches[..|branches|] == branches;
    }

    /** The body of the loop over the branches. */
    method VisitBranch(branch: Branch, date: string, wasPublicUpdated0: bool, actions0: seq<Action>)
      returns (wasPublicUpdated: bool, actions: seq<Action>)
      modifies this
      ensures Pass(saved, disk, wasPublicUpdated, actions)
           == Visit(Pass(old(saved), old(disk), wasPublicUpdated0, actions0), branch, date)
    {
      wasPublicUpdated, actions := wasPublicUpdated0, actions0;
      var wasBranchUpdated := false;
      var isPasswordLocked := branch.passwordLocked;
      if branch.name in saved {
        var branchInfo := saved[branch.name];
        if branchInfo.buildid != branch.buildid {
          saved := saved[branch.name := Saved(branch.buildid, branch.timeupdated)];
          wasBranchUpdated := true;
        }
      } else {
        saved := saved[branch.name := Saved(branch.buildid, branch.timeupdated)];
        wasBranchUpdated := true;
      }

      if wasBranchUpdated && !isPasswordLocked {
        if branch.name == "noitabeta" && wasPublicUpdated {
          actions := actions + [Skipped(branch.name)];
          return;
        }
        wasPublicUpdated, actions := Update(branch, date, wasPublicUpdated, actions);
      } else if wasBranchUpdated {
        actions := actions + [Announce(branch.name)];
      } else {
        actions := actions + [UpToDate(branch.name)];
      }
    }

    /** Rotates the install directories, downloads the branch and notifies. */
    method Update(branch: Branch, date: string, wasPublicUpdated0: bool, actions0: seq<Action>)
      returns (wasPublicUpdated: bool, actions: seq<Action>)
      modifies this
      ensures Pass(saved, disk, wasPublicUpdated, actions)
           == InstallBranch(Pass(old(saved), old(disk), wasPublicUpdated0, actions0), branch, date)
    {
      wasPublicUpdated, actions := wasPublicUpdated0, actions0;
      // drop `old`, rename `new` to `old`
      var dirs := DirsOf(disk, branch.name);
      disk := disk[branch.name := Dirs(dirs.newDir, None)];
      if branch.name != "public" {
        actions := actions + [Download(branch.name, ["-beta " + branch.name])];
      } else {
        wasPublicUpdated := true;
        actions := actions + [Download(branch.name, [])];
      }
      assert actions == actions0 + [Download(branch.name, InstallArgs(branch.name))];
      assert wasPublicUpdated == (wasPublicUpdated0 || branch.name == "public");
      var installed := Install(branch.releaseNotes);
      disk := disk[branch.name := Dirs(dirs.newDir, Some(installed))];
      assert disk == old(disk)[branch.name := Dirs(dirs.newDir, Some(installed))];
      ghost var downloaded := actions;
      if dirs.newDir.Some? {
        var emitted := NotifyAfterDownload(branch.name, dirs.newDir.value, installed, date);
        actions := actions + emitted;
      } else {
        assert actions == downloaded + [];
      }
    }
  }

  /**
   * What follows a download into a branch that had an `old` install: the
   * notes diff, classification, formatting and chunked posting when both
   * installs have release notes, and only the title otherwise.
   */
  method NotifyAfterDownload(name: string, previous: Install, installed: Install, date: string)
    returns (actions: seq<Action>)
    ensures actions == AfterDownload(name, previous, installed, date)
  {
    if previous.releaseNotes.Some? && installed.releaseNotes.Some? {
      var differences := AddedReleaseNotes(previous.releaseNotes.value, installed.releaseNotes.value);
      var sections := Classify(differences);
      SameSections(sections, Sorted(differences));
      var content, patchnotes := FormatNotes(sections, date);
      actions := PublishNotes(name, content, patchnotes);
    } else {
      actions := [Announce(name)];
    }
  }

  /** Writes the file, sends the title, then sends the message in chunks of at most 2000 characters. */
  method PublishNotes(name: string, content: string, patchnotes: string) returns (actions: seq<Action>)
    ensures actions == Publication(name, patchnotes, content)
  {
    actions := [WritePatchNotes(name, patchnotes), Announce(name)];
    var chunks := SplitAtNewLine(content, MessageLimit);
    for j := 0 to |chunks|
      invariant actions == [WritePatchNotes(name, patchnotes), Announce(name)] + Posts(chunks[..j])
    {
      PostsStep(chunks, j);
      actions := actions + [Post(chunks[j])];
    }
    assert chunks[..|chunks|] == chunks;

  }

  lemma PostsStep(chunks: seq<string>, j: nat)
    requires j < |chunks|
    ensures Posts(chunks[..j + 1]) == Posts(chunks[..j]) + [Post(chunks[j])]
  {
    var a := Posts(chunks[..j + 1]);
    var b := Posts(chunks[..j]) + [Post(chunks[j])];
    assert |a| == |b|;
    forall i | 0 <= i < |a| ensures a[i] == b[i] {
      if i < j { assert chunks[..j + 1][i] == chunks[..j][i]; }
    }
  }

  // ---------------------------------------------------------------------------
  // One branch

  /** A visit appends at least one action and touches no other branch's record or directories. */
  lemma VisitIsLocal(p: Pass, b: Branch, date: string, n: string)
    requires n != b.name
    ensures var q := Visit(p, b, date);
            && (n in q.saved <==> n in p.saved)
            && (n in p.saved ==> q.saved[n] == p.saved[n])
            && DirsOf(q.disk, n) == DirsOf(p.disk, n)
            && |p.actions| < |q.actions| && q.actions[..|p.actions|] == p.actions
  {
  }

  /**
   * The state update: afterwards the stored build is the reported one; a
   * changed or new branch stores `timeupdated` too, and an unchanged build
   * writes nothing (even if `timeupdated` moved) and is only logged.
   */
  lemma VisitRecordsBuild(p: Pass, b: Branch, date: string)
    ensures var q := Visit(p, b, date);
            && b.name in q.saved && q.saved[b.name].buildid == b.buildid
            && (IsUpdated(p.saved, b) ==> q.saved[b.name] == Saved(b.buildid, b.timeupdated))
            && (!IsUpdated(p.saved, b) ==> q == p.(actions := p.actions + [UpToDate(b.name)]))
  {
  }

  /** A changed password-locked branch is recorded and gets only its title. */
  lemma LockedBranchGetsTitleOnly(p: Pass, b: Branch, date: string)
    requires IsUpdated(p.saved, b) && b.passwordLocked
    ensures Visit(p, b, date)
         == Pass(p.saved[b.name := Saved(b.buildid, b.timeupdated)], p.disk, p.publicUpdated, p.actions + [Announce(b.name)])
  {
  }

  /**
   * A changed unlocked "noitabeta" after a public download in the same run
   * is recorded but neither downloaded nor announced.
   */
  lemma BetaSkippedAfterPublic(p: Pass, b: Branch, date: string)
    requires IsUpdated(p.saved, b) && !b.passwordLocked && b.name == "noitabeta" && p.publicUpdated
    ensures Visit(p, b, date)
         == Pass(p.saved[b.name := Saved(b.buildid, b.timeupdated)], p.disk, true, p.actions + [Skipped(b.name)])
  {
  }

  /** `was_public_updated` becomes set exactly when "public" is downloaded. */
  lemma PublicFlag(p: Pass, b: Branch, date: string)
    ensures Visit(p, b, date).publicUpdated
        <==> p.publicUpdated || (b.name == "public" && IsUpdated(p.saved, b) && !b.passwordLocked)
  {
  }

  /** The visit downloads the branch: a changed, unlocked branch that is not a skipped beta. */
  predicate Downloads(p: Pass, b: Branch) {
    IsUpdated(p.saved, b) && !b.passwordLocked && !(b.name == "noitabeta" && p.publicUpdated)
  }

  /**
   * Rotation and download: `old` now holds what `new` held (so it exists
   * exactly when `new` existed), `new` holds the downloaded build, and the
   * first new action is the download with `-beta <name>` for every branch
   * but "public".
   */
  lemma DownloadRotates(p: Pass, b: Branch, date: string)
    requires Downloads(p, b)
    ensures var q := Visit(p, b, date);
            && DirsOf(q.disk, b.name) == Dirs(DirsOf(p.disk, b.name).newDir, Some(Install(b.releaseNotes)))
            && (DirsOf(q.disk, b.name).oldDir.Some? <==> DirsOf(p.disk, b.name).newDir.Some?)
            && |q.actions| > |p.actions| && q.actions[|p.actions|] == Download(b.name, InstallArgs(b.name))
            && (b.name == "public" <==> InstallArgs(b.name) == [])
  {
  }

  /** Without an earlier install there is nothing to compare: only the download happens. */
  lemma FirstDownloadIsSilent(p: Pass, b: Branch, date: string)
    requires Downloads(p, b) && DirsOf(p.disk, b.name).newDir == None
    ensures Visit(p, b, date).actions == p.actions + [Download(b.name, InstallArgs(b.name))]
  {
  }

  /** With an earlier install but a missing notes file on either side, only the title follows. */
  lemma MissingNotesGetTitleOnly(p: Pass, b: Branch, date: string)
    requires Downloads(p, b) && DirsOf(p.disk, b.name).newDir.Some?
    requires DirsOf(p.disk, b.name).newDir.value.releaseNotes == None || b.releaseNotes == None
    ensures Visit(p, b, date).actions == p.actions + [Download(b.name, InstallArgs(b.name)), Announce(b.name)]
  {
  }

  /**
   * With both notes files, the file text is written, the title is sent and
   * the chat message follows in chunks, each within Discord's limit (how the
   * chunks make up the message is `Chunking.Reconstruction`).
   */
  lemma NotesArePublished(p: Pass, b: Branch, date: string, oldNotes: string, newNotes: string)
    requires Downloads(p, b) && DirsOf(p.disk, b.name).newDir == Some(Install(Some(oldNotes)))
    requires b.releaseNotes == Some(newNotes)
    ensures var published := Publication(b.name, PatchNotesText(oldNotes, newNotes, date), Message(oldNotes, newNotes, date));
            && Visit(p, b, date).actions == p.actions + [Download(b.name, InstallArgs(b.name))] + published
            && published[..2] == [WritePatchNotes(b.name, PatchNotesText(oldNotes, newNotes, date)), Announce(b.name)]
            && forall i :: 2 <= i < |published| ==> published[i].Post? && |published[i].chunk| <= MessageLimit
  {
    DownloadActions(p, b, date);
    PublicationShape(b.name, PatchNotesText(oldNotes, newNotes, date), Message(oldNotes, newNotes, date));
  }

  lemma PublicationFits(name: string, patchnotes: string, message: string)
    ensures PostsFit(Publication(name, patchnotes, message))
  {
    PublicationShape(name, patchnotes, message);
  }

  lemma PublicationShape(name: string, patchnotes: string, message: string)
    ensures var r := Publication(name, patchnotes, message);
            && |r| >= 2 && r[..2] == [WritePatchNotes(name, patchnotes), Announce(name)]
            && forall i :: 0 <= i < |r| ==> (2 <= i ==> r[i].Post? && |r[i].chunk| <= MessageLimit) && (i < 2 ==> !r[i].Post?)
  {
    var chunks := Chunks(message, MessageLimit);
    var r := Publication(name, patchnotes, message);
    forall i | 0 <= i < |r| ensures 2 <= i ==> r[i].Post? && |r[i].chunk| <= MessageLimit
                             ensures i < 2 ==> !r[i].Post? {
      if i >= 2 {
        assert r[i] == Posts(chunks)[i - 2] == Post(chunks[i - 2]);
      }
    }
  }

  lemma DownloadActions(p: Pass, b: Branch, date: string)
    requires Downloads(p, b)
    ensures var previous := DirsOf(p.disk, b.name).newDir;
            Visit(p, b, date).actions
              == p.actions + [Download(b.name, InstallArgs(b.name))]
                 + (if previous.Some? then AfterDownload(b.name, previous.value, Install(b.releaseNotes), date) else [])
  {
    var q := p.(saved := p.saved[b.name := Saved(b.buildid, b.timeupdated)]);
    assert Visit(p, b, date) == InstallBranch(q, b, date);
  }

  // ---------------------------------------------------------------------------
  // A whole run

  /** The keys of `data.depots.branches`, like any object's keys, are distinct. */
  predicate DistinctNames(branches: seq<Branch>) {
    forall i, j :: 0 <= i < j < |branches| ==> branches[i].name != branches[j].name
  }

  /** Posted messages never exceed Discord's limit. */
  predicate PostsFit(actions: seq<Action>) {
    forall i :: 0 <= i < |actions| && actions[i].Post? ==> |actions[i].chunk| <= MessageLimit
  }

  lemma {:induction false} RunPostsFit(p: Pass, branches: seq<Branch>, date: string)
    requires PostsFit(p.actions)
    ensures PostsFit(Run(p, branches, date).actions)
    decreases |branches|
  {
    if branches != [] {
      var b := branches[|branches| - 1];
      var q := Run(p, branches[..|branches| - 1], date);
      RunPostsFit(p, branches[..|branches| - 1], date);
      VisitPostsFit(q, b, date);
    }
  }

  lemma VisitPostsFit(p: Pass, b: Branch, date: string)
    requires PostsFit(p.actions)
    ensures PostsFit(Visit(p, b, date).actions)
  {
    if Downloads(p, b) && DirsOf(p.disk, b.name).newDir.Some? {
      var previous := DirsOf(p.disk, b.name).newDir.value;
      if previous.releaseNotes.Some? && b.releaseNotes.Some? {
        PublishedPostsFit(p, b, date, previous.releaseNotes.value, b.releaseNotes.value);
      } else {
        MissingNotesGetTitleOnly(p, b, date);
        AppendFits(p.actions, [Download(b.name, InstallArgs(b.name)), Announce(b.name)]);
      }
    } else if Downloads(p, b) {
      FirstDownloadIsSilent(p, b, date);
      AppendFits(p.actions, [Download(b.name, InstallArgs(b.name))]);
    } else if !IsUpdated(p.saved, b) {
      AppendFits(p.actions, [UpToDate(b.name)]);
    } else if b.passwordLocked {
      AppendFits(p.actions, [Announce(b.name)]);
    } else {
      AppendFits(p.actions, [Skipped(b.name)]);
    }
  }

  lemma PublishedPostsFit(p: Pass, b: Branch, date: string, oldNotes: string, newNotes: string)
    requires PostsFit(p.actions)
    requires Downloads(p, b) && DirsOf(p.disk, b.name).newDir == Some(Install(Some(oldNotes)))
    requires b.releaseNotes == Some(newNotes)
    ensures PostsFit(Visit(p, b, date).actions)
  {
    var published := Publication(b.name, PatchNotesText(oldNotes, newNotes, date), Message(oldNotes, newNotes, date));
    DownloadActions(p, b, date);
    PublicationFits(b.name, PatchNotesText(oldNotes, newNotes, date), Message(oldNotes, newNotes, date));
    DownloadThenFits(p.actions, Download(b.name, InstallArgs(b.name)), published);
  }

  lemma DownloadThenFits(xs: seq<Action>, download: Action, ys: seq<Action>)
    requires PostsFit(xs) && !download.Post? && PostsFit(ys)
    ensures PostsFit(xs + [download] + ys)
  {
    AppendFits(xs, [download]);
    AppendFits(xs + [download], ys);
  }

  lemma AppendFits(xs: seq<Action>, ys: seq<Action>)
    requires PostsFit(xs) && PostsFit(ys)
    ensures PostsFit(xs + ys)
  {
    forall i | 0 <= i < |xs + ys| && (xs + ys)[i].Post? ensures |(xs + ys)[i].chunk| <= MessageLimit {
      if i >= |xs| { assert (xs + ys)[i] == ys[i - |xs|]; }
    }
  }

  /** A run only adds keys to the store: the earlier ones and the reported names. */
  lemma {:induction false} RunKeys(p: Pass, branches: seq<Branch>, date: string)
    ensures Run(p, branches, date).saved.Keys == p.saved.Keys + (set b | b in branches :: b.name)
    decreases |branches|
  {
    if branches != [] {
      var init := branches[..|branches| - 1];
      var b := branches[|branches| - 1];
      RunKeys(p, init, date);
      VisitKeys(Run(p, init, date), b, date);
      NamesSnoc(branches, init, b);
    }
  }

  lemma NamesSnoc(branches: seq<Branch>, init: seq<Branch>, b: Branch)
    requires branches == init + [b]
    ensures (set x | x in branches :: x.name) == (set x | x in init :: x.name) + {b.name}
  {
  }

  lemma VisitKeys(p: Pass, b: Branch, date: string)
    ensures Visit(p, b, date).saved.Keys == p.saved.Keys + {b.name}
  {
  }

  /** After a run every reported branch is stored with its reported build. */
  lemma {:induction false} RunRecordsEveryBranch(p: Pass, branches: seq<Branch>, date: string)
    requires DistinctNames(branches)
    ensures forall k :: 0 <= k < |branches| ==>
              branches[k].name in Run(p, branches, date).saved
              && Run(p, branches, date).saved[branches[k].name].buildid == branches[k].buildid
    decreases |branches|
  {
    if branches != [] {
      var init := branches[..|branches| - 1];
      var b := branches[|branches| - 1];
      var q := Run(p, init, date);
      var r := Visit(q, b, date);
      assert r == Run(p, branches, date);
      assert DistinctNames(init);
      RunRecordsEveryBranch(p, init, date);
      VisitRecordsBuild(q, b, date);
      forall k | 0 <= k < |branches| ensures branches[k].name in r.saved && r.saved[branches[k].name].buildid == branches[k].buildid {
        if k < |branches| - 1 {
          assert branches[k] == init[k];
          VisitIsLocal(q, b, date, branches[k].name);
        }
      }
    }
  }

  /** One `UpToDate` per branch, in order. */
  function AllUpToDate(branches: seq<Branch>): (r: seq<Action>)
    ensures |r| == |branches|
  {
    if branches == [] then [] else AllUpToDate(branches[..|branches| - 1]) + [UpToDate(branches[|branches| - 1].name)]
  }

  /** A run over branches whose builds are all stored already changes nothing and only logs. */
  lemma {:induction false} QuietRun(p: Pass, branches: seq<Branch>, date: string)
    requires forall k :: 0 <= k < |branches| ==> branches[k].name in p.saved && p.saved[branches[k].name].buildid == branches[k].buildid
    ensures Run(p, branches, date) == p.(actions := p.actions + AllUpToDate(branches))
    decreases |branches|
  {
    if branches != [] {
      var init := branches[..|branches| - 1];
      QuietRun(p, init, date);
    }
  }

  /**
   * Running again on the same report right after a run does nothing but
   * log every branch as up to date: in particular a beta skipped in the first
   * run is not downloaded in the second.
   */
  lemma SecondRunIsQuiet(saved: map<string, Saved>, disk: map<string, Dirs>, branches: seq<Branch>, date: string, date2: string)
    requires DistinctNames(branches)
    ensures var r := Tick(saved, disk, branches, date);
            Tick(r.saved, r.disk, branches, date2) == Pass(r.saved, r.disk, false, AllUpToDate(branches))
  {
    var r := Tick(saved, disk, branches, date);
    RunRecordsEveryBranch(Pass(saved, disk, false, []), branches, date);
    forall k | 0 <= k < |branches| ensures branches[k].name in r.saved {
      assert branches[k] in branches;
    }
    QuietRun(Pass(r.saved, r.disk, false, []), branches, date2);
  }

  /**
   * Beta suppression depends on the key order: on a fresh store, "public"
   * before "noitabeta" downloads only "public", while "noitabeta" before
   * "public" downloads both.
   */
  lemma BetaSuppressionFollowsOrder(pub: Branch, beta: Branch, date: string)
    requires pub.name == "public" && beta.name == "noitabeta"
    requires !pub.passwordLocked && !beta.passwordLocked
    ensures Tick(map[], map[], [pub, beta], date).actions == [Download("public", []), Skipped("noitabeta")]
    ensures Tick(map[], map[], [beta, pub], date).actions
         == [Download("noitabeta", ["-beta noitabeta"]), Download("public", [])]
  {
    var empty := Pass(map[], map[], false, []);
    assert "public" != "noitabeta";
    assert InstallArgs("noitabeta") == ["-beta noitabeta"] by {
      assert "-beta " + "noitabeta" == "-beta noitabeta";
    }
    // "public" first
    var p1 := Visit(empty, pub, date);
    assert p1.publicUpdated && p1.actions == [Download("public", [])];
    assert p1.saved.Keys == {"public"};
    assert Run(empty, [pub], date) == p1 by {
      assert [pub][..0] == [];
    }
    assert [pub, beta][..1] == [pub];
    assert Run(empty, [pub, beta], date) == Visit(p1, beta, date);
    BetaSkippedAfterPublic(p1, beta, date);
    // "noitabeta" first
    var b1 := Visit(empty, beta, date);
    assert !b1.publicUpdated && b1.actions == [Download("noitabeta", ["-beta noitabeta"])];
    assert b1.saved.Keys == {"noitabeta"};
    assert Run(empty, [beta], date) == b1 by {
      assert [beta][..0] == [];
    }
    assert [beta, pub][..1] == [beta];
    assert Run(empty, [beta, pub], date) == Visit(b1, pub, date);
    assert DirsOf(b1.disk, "public") == Dirs(None, None);
    FirstDownloadIsSilent(b1, pub, date);
  }
}
