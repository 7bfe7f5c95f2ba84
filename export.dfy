/**
 * The export pipeline: the destination file name of a font, the per-font
 * outcome of locating and copying it, the loop that tallies the outcomes and
 * the status text built from the tally. The copy itself is an input: for each
 * selected font, whether copying its file succeeded.
 */
module Export {
  import opened Wrappers
  import Text
  import opened Manifest
  import opened Locator

  /** The characters the file name may not keep. */
  predicate Unsafe(c: char) {
    c == '/' || c == '\\' || c == ':'
  }

  /** `.replace('/', '-').replace('\\', '-').replace(':', '-')`. */
  function Sanitize(s: string): (r: string)
    ensures |r| == |s|
    ensures forall i :: 0 <= i < |s| ==> r[i] == (if Unsafe(s[i]) then '-' else s[i])
  {
    Text.ReplaceChar(Text.ReplaceChar(Text.ReplaceChar(s, '/', '-'), '\\', '-'), ':', '-')
  }

  /** Sanitizing a sanitized name changes nothing. */
  lemma SanitizeIdempotent(s: string)
    ensures Sanitize(Sanitize(s)) == Sanitize(s)
  {
  }

  /** The name written before sanitizing: `f"{name} - {weight}.otf"`. */
  function RawName(font: FontRecord): string {
    font.name + " - " + font.weight + ".otf"
  }

  /**
   * The destination file name of a font: the raw name with every unsafe
   * character turned into `-` and every other one kept in place. It is as
   * long as the raw name, holds no unsafe character and still ends in `.otf`.
   */
  function DestinationName(font: FontRecord): (r: string)
    ensures |r| == |RawName(font)| == |font.name| + |font.weight| + 7
    ensures forall i :: 0 <= i < |r| ==> r[i] == (if Unsafe(RawName(font)[i]) then '-' else RawName(font)[i])
    ensures forall i :: 0 <= i < |r| ==> !Unsafe(r[i])
    ensures r[|r| - 4..] == ".otf"
  {
    var raw := RawName(font);
    var r := Sanitize(raw);
    assert raw[|raw| - 4..] == ".otf";
    assert r[|r| - 4..] == ".otf" by {
      forall i | |r| - 4 <= i < |r| ensures r[i] == raw[i] {
        assert raw[i] == ".otf"[i - (|raw| - 4)];
      }
    }
    r
  }

  /** A family and style without unsafe characters give the raw name unchanged. */
  lemma SafeNameUnchanged(font: FontRecord)
    requires forall i :: 0 <= i < |font.name| ==> !Unsafe(font.name[i])
    requires forall i :: 0 <= i < |font.weight| ==> !Unsafe(font.weight[i])
    ensures DestinationName(font) == RawName(font)
  {
  }

  /** What became of one selected font. */
  datatype Outcome =
    | Skipped                          // its file was not found: nothing copied
    | Copied(src: Path, dest: string)  // its file was copied to `dest` in the export folder
    | Failed                           // its file was found but copying raised an error

  /**
   * The outcome for one font as the export loop has it. The locator as
   * written may return a directory, and copying a directory always raises;
   * `copyOk` says whether copying a regular file succeeds.
   */
  function FontOutcome(tree: FileSystem, font: FontRecord, copyOk: bool): Outcome {
    match LocateAsWritten(tree, font.id)
    case None => Skipped
    case Some(src) => if src !in tree.dirs && copyOk then Copied(src, DestinationName(font)) else Failed
  }

  /** The outcomes of a whole export, font by font. */
  function Outcomes(selected: seq<FontRecord>, tree: FileSystem, copyOk: seq<bool>): (r: seq<Outcome>)
    requires |copyOk| == |selected|
    ensures |r| == |selected|
  {
    seq(|selected|, i requires 0 <= i < |selected| => FontOutcome(tree, selected[i], copyOk[i]))
  }

  /** The outcome for one font with the corrected locator, which returns regular files only. */
  function IntendedOutcome(tree: FileSystem, font: FontRecord, copyOk: bool): Outcome {
    match Locate(tree, font.id)
    case None => Skipped
    case Some(src) => if copyOk then Copied(src, DestinationName(font)) else Failed
  }

  /** Some listed subdirectory that exists holds the font file, flat or nested. */
  ghost predicate FileUnderSubdir(tree: FileSystem, id: string) {
    exists s :: s in SUBDIRS && Exists(tree, [s]) && ([s, id] in tree.files || [s, id, id] in tree.files)
  }

  /**
   * The outcomes of an export with the corrected locator: only regular files
   * are copied, and a font whose file is under a listed subdirectory that
   * exists, flat or nested, is never skipped.
   */
  function IntendedOutcomes(selected: seq<FontRecord>, tree: FileSystem, copyOk: seq<bool>): (r: seq<Outcome>)
    requires |copyOk| == |selected|
    ensures |r| == |selected|
    ensures forall i :: 0 <= i < |r| && r[i].Copied? ==> r[i].src in tree.files
    ensures forall i :: 0 <= i < |r| && FileUnderSubdir(tree, selected[i].id) ==> !r[i].Skipped?
  {
    var r := seq(|selected|, i requires 0 <= i < |selected| => IntendedOutcome(tree, selected[i], copyOk[i]));
    forall i | 0 <= i < |selected| ensures (r[i].Copied? ==> r[i].src in tree.files) &&
      (r[i].Skipped? ==> forall s :: s in SUBDIRS && Exists(tree, [s]) ==>
        [s, selected[i].id] !in tree.files && [s, selected[i].id, selected[i].id] !in tree.files)
    {
      LocateFound(tree, selected[i].id);
    }
    r
  }

  /**
   * When no candidate path of any selected font is a directory, the export as
   * written and the corrected one agree font by font.
   */
  lemma OutcomesAgreeWithoutDirectories(selected: seq<FontRecord>, tree: FileSystem, copyOk: seq<bool>)
    requires |copyOk| == |selected|
    requires forall i :: 0 <= i < |selected| ==> NoDirectoryCandidate(tree, selected[i].id)
    ensures Outcomes(selected, tree, copyOk) == IntendedOutcomes(selected, tree, copyOk)
  {
    forall i | 0 <= i < |selected|
      ensures Outcomes(selected, tree, copyOk)[i] == IntendedOutcomes(selected, tree, copyOk)[i]
    {
      LocateAgreesWithoutDirectories(tree, selected[i].id);
    }
  }

  function Skips(outs: seq<Outcome>): nat {
    if outs == [] then 0 else Skips(outs[..|outs| - 1]) + (if outs[|outs| - 1].Skipped? then 1 else 0)
  }

  function Successes(outs: seq<Outcome>): nat {
    if outs == [] then 0 else Successes(outs[..|outs| - 1]) + (if outs[|outs| - 1].Copied? then 1 else 0)
  }

  function Errors(outs: seq<Outcome>): nat {
    if outs == [] then 0 else Errors(outs[..|outs| - 1]) + (if outs[|outs| - 1].Failed? then 1 else 0)
  }

  /**
   * The destination names of the successful copies, each with the source of
   * the last copy to that name. Names are compared as exact strings.
   */
  function Written(outs: seq<Outcome>): map<string, Path> {
    if outs == [] then map[]
    else
      var before := Written(outs[..|outs| - 1]);
      match outs[|outs| - 1]
      case Copied(src, dest) => before[dest := src]
      case _ => before
  }

  /** Every font lands in exactly one of the three counts. */
  lemma {:induction false} CountsPartition(outs: seq<Outcome>)
    ensures Skips(outs) + Successes(outs) + Errors(outs) == |outs|
  {
    if outs != [] {
      CountsPartition(outs[..|outs| - 1]);
    }
  }

  /** A name is written exactly when some font was copied to it. */
  lemma {:induction false} WrittenNames(outs: seq<Outcome>, name: string)
    ensures name in Written(outs) <==> exists i :: 0 <= i < |outs| && outs[i].Copied? && outs[i].dest == name
  {
    if outs != [] {
      var init := outs[..|outs| - 1];
      WrittenNames(init, name);
      if exists i :: 0 <= i < |init| && init[i].Copied? && init[i].dest == name {
        var i :| 0 <= i < |init| && init[i].Copied? && init[i].dest == name;
        assert outs[i] == init[i];
      }
      if exists i :: 0 <= i < |outs| && outs[i].Copied? && outs[i].dest == name {
        var i :| 0 <= i < |outs| && outs[i].Copied? && outs[i].dest == name;
        if i < |init| {
          assert init[i] == outs[i];
        }
      }
    }
  }

  /** Of several copies to one name, the last one's file is what the name holds. */
  lemma {:induction false} WrittenLastWins(outs: seq<Outcome>, name: string)
    requires name in Written(outs)
    ensures exists i :: 0 <= i < |outs| && outs[i] == Copied(Written(outs)[name], name) &&
                        (forall j :: i < j < |outs| ==> !(outs[j].Copied? && outs[j].dest == name))
  {
    var init := outs[..|outs| - 1];
    var last := outs[|outs| - 1];
    if last.Copied? && last.dest == name {
      assert outs[|outs| - 1] == Copied(Written(outs)[name], name);
    } else {
      WrittenLastWins(init, name);
      var i :| 0 <= i < |init| && init[i] == Copied(Written(init)[name], name) &&
        forall j :: i < j < |init| ==> !(init[j].Copied? && init[j].dest == name);
      assert outs[i] == init[i];
      forall j | i < j < |outs| ensures !(outs[j].Copied? && outs[j].dest == name) {
        if j < |init| {
          assert outs[j] == init[j];
        }
      }
    }
  }

  /** A font for which the probe finds no path at all is skipped. */
  lemma NotFoundIsSkipped(selected: seq<FontRecord>, tree: FileSystem, copyOk: seq<bool>)
    requires |copyOk| == |selected|
    ensures forall i :: 0 <= i < |selected| && LocateAsWritten(tree, selected[i].id).None? ==> Outcomes(selected, tree, copyOk)[i].Skipped?
  {
  }

  /**
   * When no font with a given destination name is found, each of them is
   * skipped and nothing is written under that name.
   */
  lemma UnfoundNameNotWritten(selected: seq<FontRecord>, tree: FileSystem, copyOk: seq<bool>, name: string)
    requires |copyOk| == |selected|
    requires forall i :: 0 <= i < |selected| && DestinationName(selected[i]) == name ==> LocateAsWritten(tree, selected[i].id).None?
    ensures forall i :: 0 <= i < |selected| && DestinationName(selected[i]) == name ==> Outcomes(selected, tree, copyOk)[i].Skipped?
    ensures name !in Written(Outcomes(selected, tree, copyOk))
  {
    var outs := Outcomes(selected, tree, copyOk);
    WrittenNames(outs, name);
  }

  /**
   * The export loop: for each selected font, locate its file with
   * `find_font_file` as written; nothing found is a skip, a found path is
   * copied to the destination name, and a copy that raises (always so when
   * the path is a directory) is counted as an error. No font stops the batch.
   */
  method Tally(selected: seq<FontRecord>, tree: FileSystem, copyOk: seq<bool>)
    returns (succeeded: nat, errored: nat, skipped: nat, written: map<string, Path>)
    requires |copyOk| == |selected|
    ensures succeeded + errored + skipped == |selected|
    ensures succeeded == Successes(Outcomes(selected, tree, copyOk))
    ensures errored == Errors(Outcomes(selected, tree, copyOk))
    ensures skipped == Skips(Outcomes(selected, tree, copyOk))
    ensures written == Written(Outcomes(selected, tree, copyOk))
  {
    ghost var outs := Outcomes(selected, tree, copyOk);
    succeeded, errored, skipped := 0, 0, 0;
    written := map[];
    var i := 0;
    while i < |selected|
      invariant 0 <= i <= |selected|
      invariant succeeded == Successes(outs[..i])
      invariant errored == Errors(outs[..i])
      invariant skipped == Skips(outs[..i])
      invariant written == Written(outs[..i])
    {
      assert outs[..i + 1][..i] == outs[..i];
      var font := selected[i];
      var srcPath := FindFontFileAsWritten(tree, font.id);
      if srcPath.None? {
        skipped := skipped + 1;
      } else if srcPath.value !in tree.dirs && copyOk[i] {
        var newName := DestinationName(font);
        written := written[newName := srcPath.value];
        succeeded := succeeded + 1;
      } else {
        errored := errored + 1;
      }
      i := i + 1;
    }
    assert outs[..i] == outs;
    CountsPartition(outs);
  }

  /** The part of the status text that reports errors: `f" ({e} errors)"`, or nothing when `e` is 0. */
  function ErrorNote(errored: nat): string {
    if errored > 0 then " (" + Text.NatToString(errored) + " errors)" else ""
  }

  /** `f"Successfully exported {n} fonts"`, followed by the error note. */
  function StatusMessage(succeeded: nat, errored: nat): string {
    "Successfully exported " + Text.NatToString(succeeded) + " fonts" + ErrorNote(errored)
  }

  /** The status text mentions errors (and has a parenthesis) exactly when some copy failed. */
  lemma StatusMentionsErrors(succeeded: nat, errored: nat)
    ensures '(' in StatusMessage(succeeded, errored) <==> errored > 0
  {
  }

  /** Different error counts give different notes. */
  lemma ErrorNoteUnambiguous(e1: nat, e2: nat)
    requires ErrorNote(e1) == ErrorNote(e2)
    ensures e1 == e2
  {
    if e1 > 0 && e2 > 0 {
      var n1 := Text.NatToString(e1);
      var n2 := Text.NatToString(e2);
      assert ErrorNote(e1) == " (" + n1 + " errors)";
      assert ErrorNote(e2) == " (" + n2 + " errors)";
      Text.NumeralAfterPrefix(" (", n1, " errors)", n2, " errors)");
      Text.NatToStringInjective(e1, e2);
    }
  }

  /** The status text determines both counts: no two tallies produce the same text. */
  lemma StatusUnambiguous(s1: nat, e1: nat, s2: nat, e2: nat)
    requires StatusMessage(s1, e1) == StatusMessage(s2, e2)
    ensures s1 == s2 && e1 == e2
  {
    var prefix := "Successfully exported ";
    var d1, d2 := Text.NatToString(s1), Text.NatToString(s2);
    var x1, x2 := " fonts" + ErrorNote(e1), " fonts" + ErrorNote(e2);
    Text.RegroupLast(prefix, d1, " fonts", ErrorNote(e1));
    Text.RegroupLast(prefix, d2, " fonts", ErrorNote(e2));
    Text.NumeralAfterPrefix(prefix, d1, x1, d2, x2);
    Text.NatToStringInjective(s1, s2);
    Text.StripPrefix(" fonts", ErrorNote(e1), ErrorNote(e2));
    ErrorNoteUnambiguous(e1, e2);
  }

  /**
   * The sample export: font 42, whose file is `r/42` and whose family and
   * style have no unsafe character, is copied to `"<family> - <style>.otf"`;
   * the tally is one success, no error and no skip.
   */
  lemma SampleExport(name: string, weight: string)
    requires forall i :: 0 <= i < |name| ==> !Unsafe(name[i])
    requires forall i :: 0 <= i < |weight| ==> !Unsafe(weight[i])
    ensures var tree := FileSystem({["r", "42"]}, {["r"]});
      var outs := Outcomes([FontRecord("42", name, weight)], tree, [true]);
      && outs == [Copied(["r", "42"], name + " - " + weight + ".otf")]
      && IntendedOutcomes([FontRecord("42", name, weight)], tree, [true]) == outs
      && Successes(outs) == 1 && Errors(outs) == 0 && Skips(outs) == 0
      && StatusMessage(Successes(outs), Errors(outs)) == "Successfully exported 1 fonts"
  {
    var tree := FileSystem({["r", "42"]}, {["r"]});
    var font := FontRecord("42", name, weight);
    assert !Exists(tree, ["e"]) && Exists(tree, ["r"]);
    var rest := ProbesFrom(tree, "42", SUBDIRS[2..]);
    assert ProbesFrom(tree, "42", SUBDIRS[1..]) == [["r", "42"], ["r", "42", "42"]] + rest;
    FirstInAfter([["r", "42"], ["r", "42", "42"]], rest, tree.files);
    FirstInAfter([["r", "42"], ["r", "42", "42"]], rest, tree.files + tree.dirs);
    assert Locate(tree, "42") == LocateAsWritten(tree, "42") == Some(["r", "42"]);
    SafeNameUnchanged(font);
    var outs := Outcomes([font], tree, [true]);
    assert outs[..0] == [];
  }

  /**
   * The export of a font whose file is nested, `r/42/42` inside the
   * directory `r/42`: as written, the directory is found, its copy raises
   * and the status line reports an error; with the corrected locator the
   * nested file is copied.
   */
  lemma DirectoryCopyCountsAsError(name: string, weight: string)
    ensures var tree := FileSystem({["r", "42", "42"]}, {["r"], ["r", "42"]});
      var font := FontRecord("42", name, weight);
      var outs := Outcomes([font], tree, [true]);
      && outs == [Failed]
      && Successes(outs) == 0 && Errors(outs) == 1 && Skips(outs) == 0
      && StatusMessage(Successes(outs), Errors(outs)) == "Successfully exported 0 fonts (1 errors)"
      && IntendedOutcomes([font], tree, [true]) == [Copied(["r", "42", "42"], DestinationName(font))]
  {
    var tree := FileSystem({["r", "42", "42"]}, {["r"], ["r", "42"]});
    var font := FontRecord("42", name, weight);
    NestedOutcomes(tree, font);
    var outs := Outcomes([font], tree, [true]);
    assert outs[..0] == [];
    ZeroOneErrorStatus();
  }

  /** On the nested tree the font fails as written and is copied from `r/42/42` with the corrected locator. */
  lemma NestedOutcomes(tree: FileSystem, font: FontRecord)
    requires tree == FileSystem({["r", "42", "42"]}, {["r"], ["r", "42"]}) && font.id == "42"
    ensures Outcomes([font], tree, [true]) == [Failed]
    ensures IntendedOutcomes([font], tree, [true]) == [Copied(["r", "42", "42"], DestinationName(font))]
  {
    AsWrittenReturnsDirectory();
    assert FontOutcome(tree, font, true) == Failed;
  }

  /** The status line for no success and one error. */
  lemma ZeroOneErrorStatus()
    ensures StatusMessage(0, 1) == "Successfully exported 0 fonts (1 errors)"
  {
  }
}
