/**
 * The extractor window's state, without its widgets: the loaded font list,
 * the checkbox map of the listing (font id to ticked or not) and the status
 * line. Each checkbox is represented by its boolean alone.
 */
module Extractor {
  import Text
  import opened Wrappers
  import opened Manifest
  import opened Locator
  import opened Selection
  import opened Export

  /** How a press of "Export Selected" ended. */
  datatype ExportReport =
    | NothingSelected    // the "No fonts selected" warning; nothing else happens
    | Cancelled          // no destination folder was chosen
    | ExportFailed       // the destination folder could not be created
    | Exported(succeeded: nat, errored: nat, skipped: nat, written: map<string, Path>)

  /** The status line after loading: the number of fonts, or the load error. */
  function LoadStatus(loaded: Result<seq<FontRecord>, LoadError>): string {
    match loaded
    case Success(fonts) => "Se cargaron " + Text.NatToString(|fonts|) + " fuentes"
    case Failure(_) => "Error cargando fuentes"
  }

  /** What loading yields: a missing manifest is fatal before the reader runs. */
  function Loaded(manifestExists: bool, doc: ManifestDoc): Result<seq<FontRecord>, LoadError> {
    if !manifestExists then Failure(ManifestMissing)
    else match doc
      case Unparsable => Failure(ParseFailed)
      case Document(None) => Failure(FontsElementMissing)
      case Document(Some(es)) => Success(KeptRecords(es))
  }

  class FontExtractor {
    var fonts: seq<FontRecord>
    var checkboxes: map<string, bool>
    var status: string
    /** The filter the listing was last drawn with. */
    ghost var filter: string

    /** The checkboxes are exactly those of the fonts the last filter shows. */
    ghost predicate Valid()
      reads this
    {
      checkboxes.Keys == VisibleIds(fonts, filter)
    }

    /** Opening the window: the fonts are loaded and listed unfiltered. */
    constructor (manifestExists: bool, doc: ManifestDoc)
      ensures Valid() && filter == ""
      ensures fonts == (if Loaded(manifestExists, doc).Success? then Loaded(manifestExists, doc).value else [])
      ensures checkboxes == Redrawn(fonts, "")
      ensures status == LoadStatus(Loaded(manifestExists, doc))
    {
      fonts := [];
      checkboxes := map[];
      status := "Ready";
      filter := "";
      new;
      assert Redrawn([], "") == map[];
      LoadFonts(manifestExists, doc);
    }

    /**
     * Reads the manifest; on success the fonts replace the list and are drawn
     * unfiltered, on failure the list stays as it was.
     */
    method LoadFonts(manifestExists: bool, doc: ManifestDoc)
      requires Valid()
      modifies this
      ensures Valid()
      ensures status == LoadStatus(Loaded(manifestExists, doc))
      ensures Loaded(manifestExists, doc).Success? ==>
        fonts == Loaded(manifestExists, doc).value && checkboxes == Redrawn(fonts, "") && filter == ""
      ensures Loaded(manifestExists, doc).Failure? ==>
        fonts == old(fonts) && checkboxes == old(checkboxes) && filter == old(filter)
    {
      if !manifestExists {
        status := "Error cargando fuentes";
        return;
      }
      var loaded := GetFontMetadata(doc);
      if loaded.Failure? {
        status := "Error cargando fuentes";
        return;
      }
      fonts := loaded.value;
      DisplayFonts("");
      status := "Se cargaron " + Text.NatToString(|fonts|) + " fuentes";
    }

    /**
     * Redraws the listing for `filterText`: every checkbox is discarded, and
     * one unticked checkbox is made for each font whose lower-cased name
     * contains the lower-cased filter.
     */
    method DisplayFonts(filterText: string)
      modifies this`checkboxes, this`filter
      ensures checkboxes == Redrawn(fonts, filterText) && filter == filterText
      ensures Valid()
    {
      checkboxes := map[];
      var i := 0;
      while i < |fonts|
        invariant 0 <= i <= |fonts|
        invariant checkboxes == Redrawn(fonts[..i], filterText)
      {
        var font := fonts[i];
        assert fonts[..i + 1] == fonts[..i] + [font];
        VisibleIdsSnoc(fonts[..i], font, filterText);
        if Text.Contains(Text.Lower(font.name), Text.Lower(filterText)) {
          checkboxes := checkboxes[font.id := false];
        }
        i := i + 1;
      }
      assert fonts[..i] == fonts;
      filter := filterText;
    }

    /** Sets every checkbox of the listing to `value`, one at a time. */
    method SetAll(value: bool)
      requires Valid()
      modifies this`checkboxes
      ensures Valid()
      ensures checkboxes == SetEvery(old(checkboxes), value)
    {
      var pending := checkboxes.Keys;
      while pending != {}
        invariant pending <= checkboxes.Keys == old(checkboxes).Keys
        invariant forall id :: id in checkboxes && id !in pending ==> checkboxes[id] == value
        decreases pending
      {
        var id :| id in pending;
        checkboxes := checkboxes[id := value];
        pending := pending - {id};
      }
    }

    /** "Select All": ticks every visible font; hidden fonts get no checkbox. */
    method SelectAll()
      requires Valid()
      modifies this`checkboxes
      ensures Valid()
      ensures checkboxes == SetEvery(old(checkboxes), true)
    {
      SetAll(true);
    }

    /** "Deselect All": unticks every visible font. */
    method DeselectAll()
      requires Valid()
      modifies this`checkboxes
      ensures Valid()
      ensures checkboxes == SetEvery(old(checkboxes), false)
    {
      SetAll(false);
    }

    /** A click on the checkbox kept for `id`; a click on a checkbox that is not in the map changes nothing. */
    method Toggle(id: string)
      requires Valid()
      modifies this`checkboxes
      ensures Valid()
      ensures checkboxes == if id in old(checkboxes) then old(checkboxes)[id := !old(checkboxes)[id]] else old(checkboxes)
    {
      if id in checkboxes {
        checkboxes := checkboxes[id := !checkboxes[id]];
      }
    }

    /**
     * The fonts an export would copy: those of the list, in order, whose
     * checkbox exists and is ticked. Each has an id that the filter the list
     * was last drawn with shows (the font itself may be hidden when it shares
     * that id with a shown one).
     */
    function SelectedFonts(): (r: seq<FontRecord>)
      requires Valid()
      reads this
      ensures forall f :: f in r <==> f in fonts && f.id in checkboxes && checkboxes[f.id]
      ensures forall f :: f in r ==> f.id in VisibleIds(fonts, filter)
    {
      var r := Selected(fonts, checkboxes);
      assert forall f :: f in r <==> f in fonts && f.id in checkboxes && checkboxes[f.id] by {
        forall f {
          SelectedMembers(fonts, checkboxes, f);
        }
      }
      r
    }

    /**
     * "Export Selected": warns and stops when nothing is ticked, stops when no
     * folder is chosen, reports an error when the folder cannot be created, and
     * otherwise runs the export loop and shows its tally on the status line.
     * `exportDir` is the folder chosen (empty when the dialog was cancelled),
     * `makeDirsOk` whether creating it worked, `copyOk` whether each copy works.
     */
    method ExportSelected(exportDir: string, makeDirsOk: bool, tree: FileSystem, copyOk: seq<bool>)
      returns (report: ExportReport)
      requires Valid()
      requires |copyOk| == |SelectedFonts()|
      modifies this`status
      ensures Valid()
      ensures var selected := SelectedFonts();
        var outs := Outcomes(selected, tree, copyOk);
        if selected == [] then report == NothingSelected && status == old(status)
        else if exportDir == "" then report == Cancelled && status == old(status)
        else if !makeDirsOk then report == ExportFailed && status == "Export error"
        else && report == Exported(Successes(outs), Errors(outs), Skips(outs), Written(outs))
             && status == StatusMessage(Successes(outs), Errors(outs))
    {
      var selected := SelectedFonts();
      if selected == [] {
        return NothingSelected;
      }
      if exportDir == "" {
        return Cancelled;
      }
      if !makeDirsOk {
        status := "Export error";
        return ExportFailed;
      }
      var succeeded, errored, skipped, written := Tally(selected, tree, copyOk);
      status := StatusMessage(succeeded, errored);
      return Exported(succeeded, errored, skipped, written);
    }
  }

  /**
   * A session as the user sees it: typing a filter, pressing "Select All" and
   * then "Export Selected" exports exactly the fonts the filter shows, in list
   * order (ids being unique), and every one of them is counted once.
   */
  method FilterSelectExport(app: FontExtractor, filterText: string, exportDir: string, tree: FileSystem, copyOk: seq<bool>)
    returns (report: ExportReport)
    requires app.Valid() && UniqueIds(app.fonts)
    requires exportDir != ""
    requires |copyOk| == |Matching(app.fonts, filterText)|
    modifies app
    ensures app.Valid() && app.fonts == old(app.fonts)
    ensures Matching(app.fonts, filterText) == [] ==> report == NothingSelected
    ensures Matching(app.fonts, filterText) != [] ==>
      var outs := Outcomes(Matching(app.fonts, filterText), tree, copyOk);
      report == Exported(Successes(outs), Errors(outs), Skips(outs), Written(outs)) &&
      Successes(outs) + Errors(outs) + Skips(outs) == |Matching(app.fonts, filterText)|
  {
    app.DisplayFonts(filterText);
    app.SelectAll();
    SelectAllExportsVisible(app.fonts, filterText);
    report := app.ExportSelected(exportDir, true, tree, copyOk);
    CountsPartition(Outcomes(Matching(app.fonts, filterText), tree, copyOk));
  }
}
