/** One breadcrumb of the path bar (hyperplane/path_segment.py): a revealer holding a
    button with an optional icon and a label, pointing at a folder URI or at a tag. */
module PathSegment {
  import opened Text

  /** Where a click on a segment leads. */
  datatype Navigation =
    | NoNavigation
    | OpenTags(tags: seq<string>)   // `new_page(tags=[tag])`
    | OpenFile(uri: string)         // `new_page(gfile)`

  /** `__navigate` (path_segment.py:106-118): a tag wins over a file, and the active
      segment, which is the location already shown, does nothing. */
  function ClickTarget(tag: Option<string>, gfile: Option<string>, active: bool): (n: Navigation)
    ensures tag.Some? && tag.value != "" ==> n == OpenTags([tag.value])
    ensures (tag.None? || tag.value == "") && gfile.Some? ==>
      (n.NoNavigation? <==> active) && (!active ==> n == OpenFile(gfile.value))
    ensures (tag.None? || tag.value == "") && gfile.None? ==> n.NoNavigation?
  {
    if tag.Some? && tag.value != "" then OpenTags([tag.value])
    else if gfile.Some? then (if active then NoNavigation else OpenFile(gfile.value))
    else NoNavigation
  }

  /** The middle-click handler (path_segment.py:60-66): a new tab with the file and,
      when there is a tag, the one-tag list. */
  datatype NewTab = NewTab(gfile: Option<string>, tags: Option<seq<string>>)

  function MiddleClickTab(tag: Option<string>, gfile: Option<string>): (t: NewTab)
    ensures t.gfile == gfile
    ensures t.tags.Some? <==> (tag.Some? && tag.value != "")
    ensures t.tags.Some? ==> t.tags.value == [tag.value]
  {
    NewTab(gfile, if tag.Some? && tag.value != "" then Some([tag.value]) else None)
  }

  class Segment {
    const labelText: string
    const iconName: string
    const uri: Option<string>
    const tag: Option<string>
    /** `Gio.File.new_for_uri(uri)` when the URI is non-empty. */
    const gfile: Option<string>
    /** `[tag]`, the attribute the drag-hover page opener reads. */
    const tags: seq<Option<string>>

    /** The `active` property. */
    var active: bool
    /** Whether the `inactive-segment` style class is on the widget. */
    var inactiveClass: bool
    /** Whether the button content (icon and label box) is visible. */
    var contentVisible: bool
    /** The label shown on the plain button, used when there is no icon. */
    var buttonLabel: string
    /** The label and icon of the button content. */
    var contentLabel: string
    var contentIcon: string

    ghost predicate Valid()
      reads this
    {
      && inactiveClass == !active
      && (gfile.Some? <==> (uri.Some? && uri.value != ""))
      && (gfile.Some? ==> gfile == uri)
      && tags == [tag]
    }

    /** The constructor (path_segment.py:40-58): the icon first, so that the label
        lands on the button when there is no icon and in the content otherwise. */
    constructor (caption: string, iconName: string, uri: Option<string>, tag: Option<string>)
      ensures Valid()
      ensures this.labelText == caption && this.iconName == iconName && this.uri == uri && this.tag == tag
      ensures active && contentVisible == (iconName != "") && contentIcon == iconName
      ensures iconName == "" ==> buttonLabel == caption && contentLabel == ""
      ensures iconName != "" ==> contentLabel == caption && buttonLabel == ""
      ensures Label() == caption
    {
      this.labelText := caption;
      this.iconName := iconName;
      this.uri := uri;
      this.tag := tag;
      this.gfile := if uri.Some? && uri.value != "" then uri else None;
      this.tags := [tag];
      active := true;
      inactiveClass := false;
      if iconName == "" {
        contentVisible := false;
        contentIcon := "";
        buttonLabel := caption;
        contentLabel := "";
      } else {
        contentVisible := true;
        contentIcon := iconName;
        contentLabel := caption;
        buttonLabel := "";
      }
    }

    /** The `label` getter: from the content when there is an icon, else the button. */
    function Label(): string
      reads this
    {
      if contentIcon != "" then contentLabel else buttonLabel
    }

    /** The `active` setter: the style class follows the flag. */
    method SetActive(value: bool)
      modifies this
      ensures active == value && inactiveClass == !value
      ensures contentVisible == old(contentVisible) && buttonLabel == old(buttonLabel)
      ensures contentLabel == old(contentLabel) && contentIcon == old(contentIcon)
    {
      active := value;
      inactiveClass := !value;
    }

    /** A click on the button. */
    function Click(): Navigation
      reads this
    {
      ClickTarget(tag, gfile, active)
    }
  }
}
