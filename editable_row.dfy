/** A sidebar row that the user can hide while editing the sidebar
    (hyperplane/editable_row.py), and the `hidden-locations` setting it edits. */
module EditableRow {
  import opened Text

  /** The `hidden-locations` key of the application's settings, with a count of the
      writes made to it. */
  class HiddenLocations {
    var values: seq<string>
    var writes: nat

    constructor (values: seq<string>)
      ensures this.values == values && writes == 0
    {
      this.values := values;
      writes := 0;
    }
  }

  /** The value an unchecked row writes: every earlier occurrence of the identifier
      dropped and the identifier appended once. */
  function Hidden(values: seq<string>, id: string): (r: seq<string>)
    ensures |r| >= 1 && r[|r| - 1] == id
    ensures multiset(r)[id] == 1
    ensures forall v :: v != id ==> multiset(r)[v] == multiset(values)[v]
  {
    WithoutCount(values, id);
    Without(values, id) + [id]
  }

  /** Hiding twice writes what hiding once wrote. */
  lemma HiddenIdempotent(values: seq<string>, id: string)
    ensures Hidden(Hidden(values, id), id) == Hidden(values, id)
  {
    WithoutConcat(Without(values, id), [id], id);
    assert Without([id], id) == [];
    WithoutAbsent(Without(values, id), id);
  }

  /** Showing a row after hiding it leaves the other entries as showing it alone would. */
  lemma ShowAfterHide(values: seq<string>, id: string)
    ensures Without(Hidden(values, id), id) == Without(values, id)
  {
    WithoutConcat(Without(values, id), [id], id);
    assert Without([id], id) == [];
    WithoutAbsent(Without(values, id), id);
  }

  /** The loop over the setting's children in `end_edit`: the children other than the
      identifier, in order, and whether any child was the identifier. */
  method DropAll<T(==)>(values: seq<T>, id: T) returns (children: seq<T>, found: bool)
    ensures children == Without(values, id)
    ensures found <==> id in values
  {
    children := [];
    found := false;
    for index := 0 to |values|
      invariant children == Without(values[..index], id)
      invariant found <==> id in values[..index]
    {
      var prefix := values[..index];
      SliceSnoc(values, index);
      WithoutSnoc(prefix, values[index], id);
      if values[index] != id {
        children := children + [values[index]];
      } else {
        found := true;
      }
    }
    assert values[..|values|] == values;
  }

  class Row {
    const settings: HiddenLocations
    /** `_identifier`, absent until a non-empty identifier is set. */
    var identifier: Option<string>
    var editable: bool
    /** The check button's state and sensitivity. */
    var checkActive: bool
    var checkSensitive: bool
    /** Whether the row itself is visible. */
    var visible: bool
    /** The revealer around the check button: its visibility and whether it shows
        its child, which is what edit mode means. */
    var revealerVisible: bool
    var revealChild: bool

    /** The constructor (editable_row.py:43-69): the check starts active, the row
        editable, and the identifier goes through its setter. */
    constructor (identifier: Option<string>, settings: HiddenLocations)
      ensures this.settings == settings && editable && checkSensitive
      ensures !revealerVisible && !revealChild
      ensures identifier.Some? && identifier.value != "" ==>
        this.identifier == identifier
        && checkActive == (identifier.value !in settings.values)
        && visible == checkActive
      ensures identifier.None? || identifier.value == "" ==>
        this.identifier.None? && checkActive && visible
    {
      this.settings := settings;
      this.identifier := None;
      editable := true;
      checkActive := true;
      checkSensitive := true;
      visible := true;
      revealerVisible := false;
      revealChild := false;
      new;
      SetIdentifier(identifier);
    }

    /** The `identifier` setter (editable_row.py:76-83): an empty or missing identifier
        is ignored; any other is stored and the check follows the setting. */
    method SetIdentifier(id: Option<string>)
      modifies this
      ensures id.None? || id.value == "" ==>
        identifier == old(identifier) && checkActive == old(checkActive) && visible == old(visible)
      ensures id.Some? && id.value != "" ==>
        identifier == id
        && checkActive == (id.value !in settings.values)
        && visible == (if revealChild then old(visible) else checkActive)
      ensures editable == old(editable) && checkSensitive == old(checkSensitive)
      ensures revealerVisible == old(revealerVisible) && revealChild == old(revealChild)
    {
      if id.None? || id.value == "" {
        return;
      }
      identifier := id;
      SetActive();
    }

    /** `set_active` (editable_row.py:161-179): the check is active exactly when the
        identifier is not hidden, and outside edit mode the row is visible exactly
        when the check is active. */
    method SetActive()
      requires identifier.Some?
      modifies this
      ensures identifier == old(identifier) && editable == old(editable)
      ensures checkActive == (identifier.value !in settings.values)
      ensures visible == (if revealChild then old(visible) else checkActive)
      ensures checkSensitive == old(checkSensitive)
      ensures revealerVisible == old(revealerVisible) && revealChild == old(revealChild)
    {
      var values := settings.values;
      var id := identifier.value;
      var index := 0;
      var found := false;
      while index < |values|
        invariant 0 <= index <= |values|
        invariant !found ==> id !in values[..index]
        invariant found ==> id in values
        decreases |values| - index, !found
      {
        if values[index] == id {
          found := true;
          break;
        }
        index := index + 1;
      }
      assert values[..|values|] == values;
      checkActive := !found;
      if !revealChild {
        visible := checkActive;
      }
    }

    /** `start_edit` (editable_row.py:112-118): the row shows, the check is sensitive
        when the row is editable, and the check is revealed. */
    method StartEdit()
      modifies this
      ensures visible && checkSensitive == editable
      ensures revealerVisible && revealChild
      ensures identifier == old(identifier) && editable == old(editable)
      ensures checkActive == old(checkActive)
    {
      visible := true;
      checkSensitive := editable;
      revealerVisible := true;
      revealChild := true;
    }

    /** `end_edit` (editable_row.py:120-159). The check is hidden (the revealer's
        delayed hiding is taken as done). A checked row drops every occurrence of
        its identifier and writes only when there was one; an unchecked row hides
        itself and writes the list with the identifier once, at the end. */
    method EndEdit()
      requires identifier.Some?
      modifies this, settings
      ensures identifier == old(identifier) && !revealChild
      ensures settings.values == if old(checkActive) then Without(old(settings.values), identifier.value)
                                 else Hidden(old(settings.values), identifier.value)
      ensures settings.writes == old(settings.writes) +
        (if old(checkActive) && identifier.value !in old(settings.values) then 0 else 1)
      ensures visible == (old(checkActive) && old(visible))
      ensures editable == old(editable)
      ensures checkActive == old(checkActive) && checkSensitive == old(checkSensitive)
      ensures !revealerVisible
    {
      var id := identifier.value;
      var values := settings.values;
      var children, found := DropAll(values, id);
      var write := true;
      if checkActive {
        if !found {
          WithoutAbsent(values, id);
          write := false;
        }
      } else {
        children := children + [id];
      }
      revealChild, revealerVisible, visible := false, false, checkActive && visible;
      if write {
        settings.values, settings.writes := children, settings.writes + 1;
      }
    }
  }
}
