/**
 * The filtered listing and its checkboxes, as values: which fonts a filter
 * shows, the checkbox map a redraw builds, the bulk select and deselect, and
 * the export selection read off the map. The class in the extractor module
 * changes its state through exactly these values.
 */
module Selection {
  import Text
  import opened Manifest

  /** `filter_text.lower() in font.name.lower()`. */
  predicate Matches(font: FontRecord, filter: string) {
    Text.Contains(Text.Lower(font.name), Text.Lower(filter))
  }

  /** The ids that get a checkbox when the list is drawn with `filter`. */
  ghost function VisibleIds(fonts: seq<FontRecord>, filter: string): set<string> {
    set f | f in fonts && Matches(f, filter) :: f.id
  }

  /** The checkbox map right after a redraw: one unchecked entry per visible id. */
  ghost function Redrawn(fonts: seq<FontRecord>, filter: string): map<string, bool> {
    map id | id in VisibleIds(fonts, filter) :: false
  }

  /** Every existing checkbox set to `value`; no checkbox added or removed. */
  ghost function SetEvery(checks: map<string, bool>, value: bool): map<string, bool> {
    map id | id in checks :: value
  }

  /** The export selection: the fonts, in list order, whose id has a checked checkbox. */
  function Selected(fonts: seq<FontRecord>, checks: map<string, bool>): seq<FontRecord> {
    if fonts == [] then []
    else
      var f := fonts[0];
      (if f.id in checks && checks[f.id] then [f] else []) + Selected(fonts[1..], checks)
  }

  /** The fonts whose id is among `ids`, in list order. */
  function WithIds(fonts: seq<FontRecord>, ids: set<string>): seq<FontRecord> {
    if fonts == [] then []
    else (if fonts[0].id in ids then [fonts[0]] else []) + WithIds(fonts[1..], ids)
  }

  /** The fonts the filter matches, in list order. */
  function Matching(fonts: seq<FontRecord>, filter: string): seq<FontRecord> {
    if fonts == [] then []
    else (if Matches(fonts[0], filter) then [fonts[0]] else []) + Matching(fonts[1..], filter)
  }

  /** No two fonts of the list share an id. */
  ghost predicate UniqueIds(fonts: seq<FontRecord>) {
    forall i, j :: 0 <= i < j < |fonts| ==> fonts[i].id != fonts[j].id
  }

  /** Adding one font to the list adds its id to the visible set exactly when it matches. */
  lemma VisibleIdsSnoc(fonts: seq<FontRecord>, f: FontRecord, filter: string)
    ensures VisibleIds(fonts + [f], filter)
      == VisibleIds(fonts, filter) + (if Matches(f, filter) then {f.id} else {})
  {
  }

  /** With an empty filter every font of the list is visible. */
  lemma EmptyFilterShowsAll(fonts: seq<FontRecord>)
    ensures VisibleIds(fonts, "") == set f | f in fonts :: f.id
  {
  }

  /** The selection holds exactly the fonts of the list whose checkbox exists and is checked. */
  lemma {:induction false} SelectedMembers(fonts: seq<FontRecord>, checks: map<string, bool>, f: FontRecord)
    ensures f in Selected(fonts, checks) <==> f in fonts && f.id in checks && checks[f.id]
  {
    if fonts != [] {
      SelectedMembers(fonts[1..], checks, f);
      assert fonts == [fonts[0]] + fonts[1..];
    }
  }

  /** The selection keeps list order: selecting from two runs is selecting from each. */
  lemma {:induction false} SelectedAppend(a: seq<FontRecord>, b: seq<FontRecord>, checks: map<string, bool>)
    ensures Selected(a + b, checks) == Selected(a, checks) + Selected(b, checks)
  {
    if a != [] {
      assert (a + b)[1..] == a[1..] + b;
      SelectedAppend(a[1..], b, checks);
    } else {
      assert a + b == b;
    }
  }

  /** A redraw forgets every earlier tick: nothing is selected until the user checks something again. */
  lemma RedrawSelectsNothing(fonts: seq<FontRecord>, filter: string, any: seq<FontRecord>)
    ensures Selected(any, Redrawn(fonts, filter)) == []
  {
  }

  /** After deselecting all, nothing is exported. */
  lemma DeselectAllSelectsNothing(fonts: seq<FontRecord>, checks: map<string, bool>)
    ensures Selected(fonts, SetEvery(checks, false)) == []
  {
  }

  /** After selecting all, the selection is every font whose id has a checkbox. */
  lemma {:induction false} SelectAllSelectsWithIds(fonts: seq<FontRecord>, checks: map<string, bool>)
    ensures Selected(fonts, SetEvery(checks, true)) == WithIds(fonts, checks.Keys)
  {
    if fonts != [] {
      SelectAllSelectsWithIds(fonts[1..], checks);
    }
  }

  /** When ids are unique, the fonts whose id is visible are exactly the matching fonts. */
  lemma {:induction false} VisibleIdsAreMatching(fonts: seq<FontRecord>, all: seq<FontRecord>, filter: string)
    requires UniqueIds(all)
    requires forall f :: f in fonts ==> f in all
    ensures WithIds(fonts, VisibleIds(all, filter)) == Matching(fonts, filter)
  {
    if fonts != [] {
      var f := fonts[0];
      VisibleIdsAreMatching(fonts[1..], all, filter);
      assert f in all;
    }
  }

  /**
   * Select all followed by export exports exactly the visible fonts, in list
   * order, when ids are unique.
   */
  lemma SelectAllExportsVisible(fonts: seq<FontRecord>, filter: string)
    requires UniqueIds(fonts)
    ensures Selected(fonts, SetEvery(Redrawn(fonts, filter), true)) == Matching(fonts, filter)
  {
    SelectAllSelectsWithIds(fonts, Redrawn(fonts, filter));
    assert Redrawn(fonts, filter).Keys == VisibleIds(fonts, filter);
    VisibleIdsAreMatching(fonts, fonts, filter);
  }

  /**
   * Whatever has been ticked since the last redraw, a font the filter hides is
   * never exported, provided no visible font shares its id.
   */
  lemma HiddenNeverSelected(fonts: seq<FontRecord>, filter: string, checks: map<string, bool>, f: FontRecord)
    requires UniqueIds(fonts)
    requires checks.Keys <= VisibleIds(fonts, filter)
    requires f in fonts && !Matches(f, filter)
    ensures f !in Selected(fonts, checks)
  {
    SelectedMembers(fonts, checks, f);
  }

  /**
   * Without unique ids a hidden font is exported: it shares its id with a
   * visible one, and the selection looks fonts up by id alone.
   */
  lemma SharedIdExportsHiddenFont()
    ensures var shown := FontRecord("7", "Arial", "Bold");
      var hidden := FontRecord("7", "Times", "Bold");
      var fonts := [shown, hidden];
      && !Matches(hidden, "arial")
      && Selected(fonts, SetEvery(Redrawn(fonts, "arial"), true)) == fonts
  {
    var shown := FontRecord("7", "Arial", "Bold");
    var hidden := FontRecord("7", "Times", "Bold");
    var fonts := [shown, hidden];
    assert Text.Lower("Arial") == "arial" == Text.Lower("arial");
    assert Matches(shown, "arial");
    assert "7" in VisibleIds(fonts, "arial");
    SelectAllSelectsWithIds(fonts, Redrawn(fonts, "arial"));
    assert WithIds(fonts, Redrawn(fonts, "arial").Keys) == [shown] + WithIds([hidden], Redrawn(fonts, "arial").Keys);
    assert Text.Lower("Times") == "times";
    Text.ContainsOccurs("times", "arial");
    assert "times"[0..5] == "times" != "arial";
  }
}
