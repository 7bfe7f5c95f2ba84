/**
 * The font file locator: a fixed-order linear probe over the one-letter
 * subdirectories of the font cache. The file system is a value: the sets of
 * regular files and of directories that exist, each named by its path
 * components below the cache root.
 */
module Locator {
  import opened Wrappers

  /** A path below the font cache root, as its components (`["r", "42"]` is `<root>/r/42`). */
  type Path = seq<string>

  datatype FileSystem = FileSystem(files: set<Path>, dirs: set<Path>)

  /** `os.path.exists`: true of regular files and directories alike. */
  predicate Exists(fs: FileSystem, p: Path) {
    p in fs.files || p in fs.dirs
  }

  /** The subdirectories probed, in order; `c`, which holds the manifest, is not among them. */
  const SUBDIRS: seq<string> := ["e", "r", "t", "u", "w", "x"]

  /** A file system as a disk has it: nothing is both a file and a directory, and every parent is a directory. */
  ghost predicate WellFormed(fs: FileSystem) {
    && fs.files !! fs.dirs
    && (forall p :: p in fs.files && |p| > 1 ==> p[..|p| - 1] in fs.dirs)
    && (forall p :: p in fs.dirs && |p| > 1 ==> p[..|p| - 1] in fs.dirs)
  }

  /** The candidate paths for `id` under the subdirectories `subs` that exist, in probe order. */
  function ProbesFrom(fs: FileSystem, id: string, subs: seq<string>): seq<Path> {
    if subs == [] then []
    else
      (if Exists(fs, [subs[0]]) then [[subs[0], id], [subs[0], id, id]] else [])
      + ProbesFrom(fs, id, subs[1..])
  }

  function Probes(fs: FileSystem, id: string): seq<Path> {
    ProbesFrom(fs, id, SUBDIRS)
  }

  /** The first candidate that is in `found`, if there is one. */
  function FirstIn(cands: seq<Path>, found: set<Path>): (r: Option<Path>)
    ensures r.None? <==> forall k :: 0 <= k < |cands| ==> cands[k] !in found
    ensures r.Some? ==> exists k :: 0 <= k < |cands| && cands[k] == r.value && r.value in found &&
                                   forall j :: 0 <= j < k ==> cands[j] !in found
  {
    if cands == [] then None
    else if cands[0] in found then Some(cands[0])
    else
      var r := FirstIn(cands[1..], found);
      assert forall k :: 0 < k < |cands| ==> cands[k] == cands[1..][k - 1];
      r
  }

  /** Candidates ahead of `rest` that are not found do not change the answer; a found one is the answer. */
  lemma {:induction false} FirstInAfter(head: seq<Path>, rest: seq<Path>, found: set<Path>)
    ensures (forall k :: 0 <= k < |head| ==> head[k] !in found) ==> FirstIn(head + rest, found) == FirstIn(rest, found)
    ensures |head| > 0 && head[0] in found ==> FirstIn(head + rest, found) == Some(head[0])
    ensures |head| > 1 && head[0] !in found && head[1] in found ==> FirstIn(head + rest, found) == Some(head[1])
  {
    if head != [] {
      assert (head + rest)[0] == head[0];
      assert (head + rest)[1..] == head[1..] + rest;
      FirstInAfter(head[1..], rest, found);
      if forall k :: 0 <= k < |head| ==> head[k] !in found {
        assert forall k :: 0 <= k < |head[1..]| ==> head[1..][k] !in found;
        assert FirstIn(head + rest, found) == FirstIn(head[1..] + rest, found);
      }
    } else {
      assert head + rest == rest;
    }
  }

  /** What the locator should find: the first candidate that is a regular file. */
  function Locate(fs: FileSystem, id: string): Option<Path> {
    FirstIn(Probes(fs, id), fs.files)
  }

  /** What `find_font_file` finds as written: the first candidate that exists at all. */
  function LocateAsWritten(fs: FileSystem, id: string): Option<Path> {
    FirstIn(Probes(fs, id), fs.files + fs.dirs)
  }

  /**
   * `find_font_file` as written: a missing subdirectory is skipped; in one
   * that exists the flat path is tried before the nested one, and the first
   * path that exists is returned, whether a file or a directory.
   */
  method FindFontFileAsWritten(fs: FileSystem, fontId: string) returns (r: Option<Path>)
    ensures r == LocateAsWritten(fs, fontId)
  {
    var i := 0;
    while i < |SUBDIRS|
      invariant 0 <= i <= |SUBDIRS|
      invariant LocateAsWritten(fs, fontId) == FirstIn(ProbesFrom(fs, fontId, SUBDIRS[i..]), fs.files + fs.dirs)
    {
      var subdir := SUBDIRS[i];
      assert SUBDIRS[i..][0] == subdir && SUBDIRS[i..][1..] == SUBDIRS[i + 1..];
      if Exists(fs, [subdir]) {
        var filePath := [subdir, fontId];
        assert ProbesFrom(fs, fontId, SUBDIRS[i..])
          == [filePath, [subdir, fontId, fontId]] + ProbesFrom(fs, fontId, SUBDIRS[i + 1..]);
        FirstInAfter([filePath, [subdir, fontId, fontId]], ProbesFrom(fs, fontId, SUBDIRS[i + 1..]), fs.files + fs.dirs);
        if Exists(fs, filePath) {
          return Some(filePath);
        }
        var nestedPath := [subdir, fontId, fontId];
        if Exists(fs, nestedPath) {
          return Some(nestedPath);
        }
      } else {
        assert ProbesFrom(fs, fontId, SUBDIRS[i..]) == ProbesFrom(fs, fontId, SUBDIRS[i + 1..]);
      }
      i := i + 1;
    }
    return None;
  }

  /**
   * The locator the rest of the model uses: the same probe, accepting only a
   * candidate that is a regular file.
   */
  method FindFontFile(fs: FileSystem, fontId: string) returns (r: Option<Path>)
    ensures r == Locate(fs, fontId)
  {
    var i := 0;
    while i < |SUBDIRS|
      invariant 0 <= i <= |SUBDIRS|
      invariant Locate(fs, fontId) == FirstIn(ProbesFrom(fs, fontId, SUBDIRS[i..]), fs.files)
    {
      var subdir := SUBDIRS[i];
      assert SUBDIRS[i..][0] == subdir && SUBDIRS[i..][1..] == SUBDIRS[i + 1..];
      if Exists(fs, [subdir]) {
        var filePath := [subdir, fontId];
        assert ProbesFrom(fs, fontId, SUBDIRS[i..])
          == [filePath, [subdir, fontId, fontId]] + ProbesFrom(fs, fontId, SUBDIRS[i + 1..]);
        FirstInAfter([filePath, [subdir, fontId, fontId]], ProbesFrom(fs, fontId, SUBDIRS[i + 1..]), fs.files);
        if filePath in fs.files {
          return Some(filePath);
        }
        var nestedPath := [subdir, fontId, fontId];
        if nestedPath in fs.files {
          return Some(nestedPath);
        }
      } else {
        assert ProbesFrom(fs, fontId, SUBDIRS[i..]) == ProbesFrom(fs, fontId, SUBDIRS[i + 1..]);
      }
      i := i + 1;
    }
    return None;
  }

  /** Every candidate is the flat or the nested path for `id` under a listed subdirectory that exists. */
  lemma {:induction false} ProbesShape(fs: FileSystem, id: string, subs: seq<string>, k: int)
    requires 0 <= k < |ProbesFrom(fs, id, subs)|
    ensures var p := ProbesFrom(fs, id, subs)[k];
      && |p| > 0 && p[0] in subs && Exists(fs, [p[0]])
      && (p == [p[0], id] || p == [p[0], id, id])
      && (p == [p[0], id, id] ==> k > 0 && ProbesFrom(fs, id, subs)[k - 1] == [p[0], id])
  {
    var head := if Exists(fs, [subs[0]]) then [[subs[0], id], [subs[0], id, id]] else [];
    var rest := ProbesFrom(fs, id, subs[1..]);
    if k >= |head| {
      ProbesShape(fs, id, subs[1..], k - |head|);
      assert ProbesFrom(fs, id, subs)[k] == rest[k - |head|];
      if k - |head| > 0 {
        assert ProbesFrom(fs, id, subs)[k - 1] == rest[k - |head| - 1];
      }
    }
  }

  /**
   * The result of the locator is a regular file reached through the probe:
   * under one of `e r t u w x` (never `c`) that exists, at the flat or the
   * nested path for the id; when nothing is returned, no candidate is a file.
   */
  lemma LocateFound(fs: FileSystem, id: string)
    ensures match Locate(fs, id)
      case Some(p) =>
        && p in fs.files && |p| > 0 && p[0] in SUBDIRS && p[0] != "c" && Exists(fs, [p[0]])
        && (p == [p[0], id] || p == [p[0], id, id])
      case None =>
        forall s :: s in SUBDIRS && Exists(fs, [s]) ==> [s, id] !in fs.files && [s, id, id] !in fs.files
  {
    var cands := Probes(fs, id);
    match Locate(fs, id)
    case Some(p) =>
      var k :| 0 <= k < |cands| && cands[k] == p;
      ProbesShape(fs, id, SUBDIRS, k);
    case None =>
      forall s | s in SUBDIRS && Exists(fs, [s])
        ensures [s, id] !in fs.files && [s, id, id] !in fs.files
      {
        var i :| 0 <= i < |SUBDIRS| && SUBDIRS[i] == s;
        var k := ProbesIndex(fs, id, SUBDIRS, i);
        assert cands[k] == [s, id] && cands[k + 1] == [s, id, id];
      }
  }

  /**
   * The same for `find_font_file` as written: its result is an existing path,
   * file or directory, reached through the probe; when nothing is returned,
   * no candidate exists at all.
   */
  lemma LocateFoundAsWritten(fs: FileSystem, id: string)
    ensures match LocateAsWritten(fs, id)
      case Some(p) =>
        && Exists(fs, p) && |p| > 0 && p[0] in SUBDIRS && p[0] != "c" && Exists(fs, [p[0]])
        && (p == [p[0], id] || p == [p[0], id, id])
      case None =>
        forall s :: s in SUBDIRS && Exists(fs, [s]) ==> !Exists(fs, [s, id]) && !Exists(fs, [s, id, id])
  {
    var cands := Probes(fs, id);
    match LocateAsWritten(fs, id)
    case Some(p) =>
      var k :| 0 <= k < |cands| && cands[k] == p;
      ProbesShape(fs, id, SUBDIRS, k);
    case None =>
      forall s | s in SUBDIRS && Exists(fs, [s])
        ensures !Exists(fs, [s, id]) && !Exists(fs, [s, id, id])
      {
        var i :| 0 <= i < |SUBDIRS| && SUBDIRS[i] == s;
        var k := ProbesIndex(fs, id, SUBDIRS, i);
        assert cands[k] == [s, id] && cands[k + 1] == [s, id, id];
      }
  }

  /** Both paths for an existing listed subdirectory are among the candidates, flat first. */
  lemma {:induction false} ProbesIndex(fs: FileSystem, id: string, subs: seq<string>, i: int) returns (k: nat)
    requires 0 <= i < |subs| && Exists(fs, [subs[i]])
    ensures k + 1 < |ProbesFrom(fs, id, subs)|
    ensures ProbesFrom(fs, id, subs)[k] == [subs[i], id]
    ensures ProbesFrom(fs, id, subs)[k + 1] == [subs[i], id, id]
  {
    var head := if Exists(fs, [subs[0]]) then [[subs[0], id], [subs[0], id, id]] else [];
    if i == 0 {
      k := 0;
    } else {
      var k' := ProbesIndex(fs, id, subs[1..], i - 1);
      k := k' + |head|;
    }
  }

  /** Two file systems that agree on the candidates give the same answer. */
  lemma FirstInAgree(cands: seq<Path>, a: set<Path>, b: set<Path>)
    requires forall k :: 0 <= k < |cands| ==> (cands[k] in a <==> cands[k] in b)
    ensures FirstIn(cands, a) == FirstIn(cands, b)
  {
  }

  /** Nothing under `c`, nor anywhere outside `e r t u w x`, affects where a font is found. */
  lemma LocateIgnoresOtherDirs(fs1: FileSystem, fs2: FileSystem, id: string)
    requires forall p :: |p| > 0 && p[0] in SUBDIRS ==>
      (p in fs1.files <==> p in fs2.files) && (p in fs1.dirs <==> p in fs2.dirs)
    ensures Locate(fs1, id) == Locate(fs2, id)
  {
    ProbesAgree(fs1, fs2, id, SUBDIRS);
    var cands := Probes(fs1, id);
    forall k | 0 <= k < |cands| ensures cands[k] in fs1.files <==> cands[k] in fs2.files {
      ProbesShape(fs1, id, SUBDIRS, k);
    }
    FirstInAgree(cands, fs1.files, fs2.files);
  }

  /** The same for `find_font_file` as written. */
  lemma LocateAsWrittenIgnoresOtherDirs(fs1: FileSystem, fs2: FileSystem, id: string)
    requires forall p :: |p| > 0 && p[0] in SUBDIRS ==>
      (p in fs1.files <==> p in fs2.files) && (p in fs1.dirs <==> p in fs2.dirs)
    ensures LocateAsWritten(fs1, id) == LocateAsWritten(fs2, id)
  {
    ProbesAgree(fs1, fs2, id, SUBDIRS);
    var cands := Probes(fs1, id);
    forall k | 0 <= k < |cands| ensures cands[k] in fs1.files + fs1.dirs <==> cands[k] in fs2.files + fs2.dirs {
      ProbesShape(fs1, id, SUBDIRS, k);
    }
    FirstInAgree(cands, fs1.files + fs1.dirs, fs2.files + fs2.dirs);
  }

  lemma {:induction false} ProbesAgree(fs1: FileSystem, fs2: FileSystem, id: string, subs: seq<string>)
    requires forall s :: s in subs ==> (Exists(fs1, [s]) <==> Exists(fs2, [s]))
    ensures ProbesFrom(fs1, id, subs) == ProbesFrom(fs2, id, subs)
  {
    if subs != [] {
      ProbesAgree(fs1, fs2, id, subs[1..]);
    }
  }

  /** On a well-formed file system `<sub>/<id>/<id>` exists only inside the directory `<sub>/<id>`. */
  lemma NestedParentIsDirectory(fs: FileSystem, sub: string, id: string)
    requires WellFormed(fs) && Exists(fs, [sub, id, id])
    ensures [sub, id] in fs.dirs
  {
    assert [sub, id, id][..2] == [sub, id];
  }

  /**
   * On a well-formed file system the locator as written never reaches the
   * nested path: whenever `<sub>/<id>/<id>` exists, `<sub>/<id>` exists too
   * (as its directory) and is returned first.
   */
  lemma AsWrittenNeverNested(fs: FileSystem, id: string)
    requires WellFormed(fs)
    ensures LocateAsWritten(fs, id).Some? ==> |LocateAsWritten(fs, id).value| == 2
  {
    var cands := Probes(fs, id);
    var found := fs.files + fs.dirs;
    if LocateAsWritten(fs, id).Some? {
      var p := LocateAsWritten(fs, id).value;
      var k :| 0 <= k < |cands| && cands[k] == p && p in found &&
               forall j :: 0 <= j < k ==> cands[j] !in found;
      ProbesShape(fs, id, SUBDIRS, k);
      if |p| != 2 {
        NestedParentIsDirectory(fs, p[0], id);
        assert false;
      }
    }
  }

  /**
   * A concrete tree on which the two differ: `r/42` is a directory holding the
   * font file `r/42/42`. As written, the directory is returned (and copying it
   * fails); the regular-file probe returns the font file.
   */
  lemma AsWrittenReturnsDirectory()
    ensures var fs := FileSystem({["r", "42", "42"]}, {["r"], ["r", "42"]});
      && WellFormed(fs)
      && LocateAsWritten(fs, "42") == Some(["r", "42"]) && ["r", "42"] in fs.dirs
      && Locate(fs, "42") == Some(["r", "42", "42"])
  {
    var fs := FileSystem({["r", "42", "42"]}, {["r"], ["r", "42"]});
    NestedTreeWellFormed(fs);
    var rest := NestedProbes(fs);
    FirstInAfter([["r", "42"], ["r", "42", "42"]], rest, fs.files);
    FirstInAfter([["r", "42"], ["r", "42", "42"]], rest, fs.files + fs.dirs);
  }

  /** That tree is well formed: `r/42/42` sits in `r/42`, which sits in `r`. */
  lemma NestedTreeWellFormed(fs: FileSystem)
    requires fs == FileSystem({["r", "42", "42"]}, {["r"], ["r", "42"]})
    ensures WellFormed(fs)
  {
    assert ["r", "42", "42"][..2] == ["r", "42"];
    assert ["r", "42"][..1] == ["r"];
  }

  /** On that tree `e` is missing and `r` exists, so the probes start with `r/42` and `r/42/42`. */
  lemma NestedProbes(fs: FileSystem) returns (rest: seq<Path>)
    requires fs == FileSystem({["r", "42", "42"]}, {["r"], ["r", "42"]})
    ensures Probes(fs, "42") == [["r", "42"], ["r", "42", "42"]] + rest
  {
    assert !Exists(fs, ["e"]);
    assert Exists(fs, ["r"]);
    assert SUBDIRS[1..][1..] == SUBDIRS[2..];
    rest := ProbesFrom(fs, "42", SUBDIRS[2..]);
    assert ProbesFrom(fs, "42", SUBDIRS[1..]) == [["r", "42"], ["r", "42", "42"]] + rest;
  }

  /** No candidate path for `id` is a directory. */
  ghost predicate NoDirectoryCandidate(fs: FileSystem, id: string) {
    forall k :: 0 <= k < |Probes(fs, id)| ==> Probes(fs, id)[k] !in fs.dirs
  }

  /** Where no candidate is a directory, the locator as written finds the same regular file, or nothing. */
  lemma LocateAgreesWithoutDirectories(fs: FileSystem, id: string)
    requires NoDirectoryCandidate(fs, id)
    ensures LocateAsWritten(fs, id) == Locate(fs, id)
    ensures LocateAsWritten(fs, id).Some? ==> LocateAsWritten(fs, id).value !in fs.dirs
  {
    FirstInAgree(Probes(fs, id), fs.files, fs.files + fs.dirs);
  }
}
