/** One file in a page's grid or list (hyperplane/item.py): what binding a file
    decides (stem, extension badge, executable, the tags it has beyond the page's),
    the context-menu set of a right click, and the layout arithmetic of a zoom level. */
module Item {
  import opened Text
  import PathBar

  /** `DOT_IS_NOT_EXTENSION` (file_properties.py:22-27): types whose dot starts no
      extension. */
  const DotIsNotExtension: set<string> :=
    {"application/x-sharedlib", "application/x-executable", "application/x-pie-executable", "inode/symlink"}

  /** `PurePath(s).name`: the last component, "" when there is none. */
  function FinalName(s: string): string {
    var parts := PathBar.NonEmpty(SplitOn(s, "/"));
    if parts == [] then "" else parts[|parts| - 1]
  }

  /** `name.rfind(".")`, -1 when there is no dot. */
  function LastDot(name: string): (i: int)
    ensures -1 <= i < |name|
    ensures i >= 0 ==> name[i] == '.'
    ensures forall j :: i < j < |name| ==> name[j] != '.'
  {
    if name == [] then -1
    else if name[|name| - 1] == '.' then |name| - 1
    else LastDot(name[..|name| - 1])
  }

  /** Whether a name has a suffix: a dot that neither starts nor ends it. */
  predicate HasSuffix(name: string) {
    0 < LastDot(name) < |name| - 1
  }

  /** `PurePath(s).suffix`. */
  function Suffix(s: string): string {
    var name := FinalName(s);
    if HasSuffix(name) then name[LastDot(name)..] else ""
  }

  /** `PurePath(s).stem`. */
  function Stem(s: string): string {
    var name := FinalName(s);
    if HasSuffix(name) then name[..LastDot(name)] else name
  }

  /** The stem and the suffix make up the name; a suffix is a dot and at least one
      more character, with no further dot, and it follows a non-empty stem. */
  lemma StemAndSuffix(s: string)
    ensures Stem(s) + Suffix(s) == FinalName(s)
    ensures Suffix(s) == "" || (|Suffix(s)| >= 2 && Suffix(s)[0] == '.' && '.' !in Suffix(s)[1..] && Stem(s) != "")
  {
    var name := FinalName(s);
    if HasSuffix(name) {
      var i := LastDot(name);
      assert name[..i] + name[i..] == name;
      forall j | 0 <= j < |name[i..][1..]|
        ensures name[i..][1..][j] != '.'
      {
        assert name[i..][1..][j] == name[i + 1 + j];
      }
    }
  }

  /** `str.upper()` on ASCII letters; other characters are left as they are. */
  function Upper(s: string): (r: string)
    ensures |r| == |s|
    ensures forall i :: 0 <= i < |s| ==> r[i] == (if 'a' <= s[i] <= 'z' then (s[i] as int - 32) as char else s[i])
  {
    if s == [] then [] else
      [if 'a' <= s[0] <= 'z' then (s[0] as int - 32) as char else s[0]] + Upper(s[1..])
  }

  /** What `bind` reads from a file's info. An empty `contentType` stands for none;
      `parentPath` is `None` when the file has no parent or the parent no local path. */
  datatype Info = Info(
    contentType: string,
    canExecute: bool,
    displayName: string,
    parentPath: Option<string>,
    uri: string,
    uriScheme: string)

  predicate IsDir(info: Info) {
    info.contentType == "inode/directory"
  }

  /** `is_executable` (item.py:221-224): never for a folder. */
  function Executable(info: Info): (x: bool)
    ensures x ==> !IsDir(info)
    ensures !IsDir(info) ==> (x <==> info.canExecute)
  {
    !IsDir(info) && info.canExecute
  }

  /** The stem and extension badge (item.py:225-254). */
  datatype NameParts = NameParts(stem: string, extension: Option<string>)

  function Parts(info: Info): (p: NameParts)
    ensures IsDir(info) || info.contentType in DotIsNotExtension ==>
      p.stem == info.displayName && p.extension.None?
    ensures !IsDir(info) && info.contentType !in DotIsNotExtension ==>
      p.stem == Stem(info.displayName) && p.extension.Some?
      && |p.extension.value| == (if Suffix(info.displayName) == "" then 0 else |Suffix(info.displayName)| - 1)
      && p.extension.value == Upper(if Suffix(info.displayName) == "" then "" else Suffix(info.displayName)[1..])
  {
    if IsDir(info) || info.contentType in DotIsNotExtension then NameParts(info.displayName, None)
    else
      var suffix := Suffix(info.displayName);
      NameParts(Stem(info.displayName), Some(Upper(if suffix == "" then "" else suffix[1..])))
  }

  /** An extension badge has no dot and no lower-case ASCII letter, and the stem with
      the dotted suffix gives back the file's name. */
  lemma BadgeShape(info: Info)
    requires !IsDir(info) && info.contentType !in DotIsNotExtension
    ensures var p := Parts(info);
      && '.' !in p.extension.value
      && (forall i :: 0 <= i < |p.extension.value| ==> !('a' <= p.extension.value[i] <= 'z'))
      && p.stem + Suffix(info.displayName) == FinalName(info.displayName)
  {
    var suffix := Suffix(info.displayName);
    StemAndSuffix(info.displayName);
    var dotless := if suffix == "" then "" else suffix[1..];
    assert '.' !in dotless;
    UpperShape(dotless);
  }

  /** Upper-casing adds no dot and leaves no lower-case ASCII letter. */
  lemma UpperShape(s: string)
    ensures '.' !in s ==> '.' !in Upper(s)
    ensures forall i :: 0 <= i < |Upper(s)| ==> !('a' <= Upper(s)[i] <= 'z')
  {
    var u := Upper(s);
    if '.' !in s {
      forall i | 0 <= i < |u|
        ensures u[i] != '.'
      {
        assert s[i] != '.';
      }
    }
  }

  /** The label shown: the stem at a non-zero zoom level, the full name at zero
      (item.py:282, 564-570). */
  function Shown(zoomLevel: nat, stem: Option<string>, fullName: Option<string>): (s: Option<string>)
    ensures zoomLevel == 0 ==> s == fullName
    ensures zoomLevel != 0 ==> s == stem
  {
    if zoomLevel != 0 then stem else fullName
  }

  /** What building the additional tags does (item.py:204-219). */
  datatype TagsLabel =
    | NoLabel             // nothing is set
    | Label(text: string) // the label is shown with this text
    | NotRelative         // `relative_to` raises and binding stops

  /** The parts of `parts` that are not page tags, in order. */
  function Extra(parts: seq<string>, tags: seq<string>): (r: seq<string>)
    ensures forall p :: p in r <==> p in parts && p !in tags
    ensures |r| <= |parts|
  {
    if parts == [] then []
    else
      assert parts == parts[..|parts| - 1] + [parts[|parts| - 1]];
      Extra(parts[..|parts| - 1], tags) + (if parts[|parts| - 1] in tags then [] else [parts[|parts| - 1]])
  }

  /** `Extra` keeps the parts in order and with their repetitions: filtering two runs
      of parts filters each run in turn. */
  lemma {:induction false} ExtraConcat(a: seq<string>, b: seq<string>, tags: seq<string>)
    ensures Extra(a + b, tags) == Extra(a, tags) + Extra(b, tags)
    decreases |b|
  {
    var ab := a + b;
    if b == [] {
      assert ab == a;
      assert Extra(b, tags) == [];
      assert Extra(a, tags) + [] == Extra(a, tags);
    } else {
      var init := b[..|b| - 1];
      var last := b[|b| - 1];
      var kept := if last in tags then [] else [last];
      assert ab[..|ab| - 1] == a + init;
      assert ab[|ab| - 1] == last;
      assert Extra(ab, tags) == Extra(a + init, tags) + kept;
      assert Extra(b, tags) == Extra(init, tags) + kept;
      ExtraConcat(a, init, tags);
      ConcatAssociates(Extra(a, tags), Extra(init, tags), kept);
    }
  }

  lemma ConcatAssociates(x: seq<string>, y: seq<string>, z: seq<string>)
    ensures (x + y) + z == x + (y + z)
  {
  }

  /** A single part is kept exactly when it is not a page tag. */
  lemma ExtraOne(p: string, tags: seq<string>)
    ensures Extra([p], tags) == (if p in tags then [] else [p])
  {
    assert [p][..0] == [];
  }

  function AdditionalTags(pageTags: seq<string>, parentPath: Option<string>, home: string): (l: TagsLabel)
    ensures pageTags == [] || parentPath.None? ==> l == NoLabel
    ensures l.NotRelative? <==>
      (pageTags != [] && parentPath.Some? && !(PathBar.PathParts(home) <= PathBar.PathParts(parentPath.value)))
  {
    if pageTags == [] || parentPath.None? then NoLabel
    else
      var home := PathBar.PathParts(home);
      var parent := PathBar.PathParts(parentPath.value);
      if !(home <= parent) then NotRelative
      else
        var extra := Extra(parent[|home|..], pageTags);
        if extra == [] then NoLabel else Label(Join(extra, ", "))
  }

  /** The tags in an additional-tags label are the folders between home and the file
      that are not among the page's tags. */
  lemma AdditionalTagsAreExtra(pageTags: seq<string>, parent: string, home: string)
    requires pageTags != [] && PathBar.PathParts(home) <= PathBar.PathParts(parent)
    ensures var extra := Extra(PathBar.PathParts(parent)[|PathBar.PathParts(home)|..], pageTags);
      && (forall t :: t in extra ==> t !in pageTags)
      && AdditionalTags(pageTags, Some(parent), home) == (if extra == [] then NoLabel else Label(Join(extra, ", ")))
  {
  }

  /** The context-menu actions before the file is looked at (item.py:672-680). */
  const BaseMenu: set<string> := {"rename", "copy", "cut", "trash", "open", "open-with", "properties"}

  /** The menu set of a right click (item.py:669-697). */
  function MenuItems(executable: bool, dir: bool, scheme: string, uri: string): (m: set<string>)
    ensures "execute-file" in m <==> executable
    ensures ("open-new-tab" in m <==> dir) && ("open-new-window" in m <==> dir)
    ensures scheme == "trash" ==>
      && "trash" !in m && "rename" !in m
      && ("trash-restore" in m <==> CountChar(uri, '/') < 4)
      && ("trash-delete" in m <==> CountChar(uri, '/') < 4)
      && BaseMenu - {"trash", "rename"} <= m
    ensures scheme != "trash" ==> BaseMenu <= m && "trash-restore" !in m && "trash-delete" !in m
    ensures m <= BaseMenu + {"execute-file", "open-new-tab", "open-new-window", "trash-restore", "trash-delete"}
  {
    var items := BaseMenu;
    var items := if executable then items + {"execute-file"} else items;
    var items := if dir then items + {"open-new-tab", "open-new-window"} else items;
    if scheme == "trash" then
      var items := items - {"trash", "rename"};
      if CountChar(uri, '/') < 4 then items + {"trash-restore", "trash-delete"} else items
    else items
  }

  /** An executable file, whatever its location, never offers to open in a new tab. */
  lemma ExecutableIsNoFolder(info: Info)
    ensures var m := MenuItems(Executable(info), IsDir(info), info.uriScheme, info.uri);
      "execute-file" in m ==> "open-new-tab" !in m && "open-new-window" !in m
  {
  }

  /** The sizes a zoom level sets (item.py:572-640). */
  datatype Layout = Layout(
    boxMargin: int,
    playMargin: int,
    playPixelSize: int,
    thumbnailWidth: int,
    thumbnailHeight: int,
    dirSpacing: int,
    dirMarginStart: int,
    dirMarginTop: int,
    dirThumbnailSize: int,
    iconPixelSize: int)

  function ZoomLayout(z: nat): Layout {
    var thumbnail :=
      if z == 0 then (48, 48)
      else if z == 1 then (96, 74)
      else if z == 2 then (96, 96)
      else (40 * z, 32 * z);
    var dir :=
      if z < 1 then (8, 8, 4)
      else if z < 3 then (12, 10, 6)
      else if z < 4 then (6, 6, 6)
      else if z < 5 then (9, 8, 8)
      else (9, 7, 7);
    Layout(
      z * 3,
      z * 2 + 8,
      z * 4 + 8,
      thumbnail.0, thumbnail.1,
      dir.0, dir.1, dir.2,
      if z < 4 then 32 else if z < 5 then 42 else 56,
      if z < 2 then 16 else 32)
  }

  /** Zooming in never shrinks the thumbnail, the folder previews or the icon, and
      widens the margins. */
  lemma ZoomGrows(z1: nat, z2: nat)
    requires z1 <= z2
    ensures var a, b := ZoomLayout(z1), ZoomLayout(z2);
      && a.thumbnailWidth <= b.thumbnailWidth && a.thumbnailHeight <= b.thumbnailHeight
      && a.dirThumbnailSize <= b.dirThumbnailSize && a.iconPixelSize <= b.iconPixelSize
      && a.boxMargin <= b.boxMargin && a.playPixelSize <= b.playPixelSize
  {
  }

  /** The play button with its margins fits inside the thumbnail at every zoom level. */
  lemma PlayButtonFits(z: nat)
    ensures var l := ZoomLayout(z);
      l.playPixelSize + 2 * l.playMargin <= l.thumbnailHeight <= l.thumbnailWidth
  {
  }

  /** `__set_circular` (item.py:548-554): circular only at zoom level 0. */
  function Circular(zoomLevel: nat, wanted: bool): (c: bool)
    ensures c ==> zoomLevel == 0
    ensures zoomLevel == 0 ==> c == wanted
  {
    if zoomLevel != 0 then false else wanted
  }

  class Page {
    const tags: seq<string>
    /** Whether the page has a parent widget. */
    var attached: bool
    var menuItems: set<string>

    constructor (tags: seq<string>, attached: bool)
      ensures this.tags == tags && this.attached == attached && menuItems == {}
    {
      this.tags := tags;
      this.attached := attached;
      menuItems := {};
    }
  }

  class Item {
    const page: Page
    var zoomLevel: nat
    var stem: Option<string>
    var fullName: Option<string>
    var displayName: Option<string>
    var extension: Option<string>
    var extensionVisible: bool
    var extensionOpacity: int
    var additionalTags: Option<string>
    var tagsLabelVisible: bool
    /** Whether a `bind` has run to its end. */
    var bound: bool
    var isDir: bool
    var isExecutable: bool
    var uri: string
    var uriScheme: string
    /** Whether there is a thumbnail paintable. */
    var hasThumbnail: bool
    /** The visibility of the circular icon and of the thumbnail, once set. */
    var circularVisible: Option<bool>
    var thumbnailVisible: Option<bool>
    /** The layout of the last zoom, `None` before any. */
    var layout: Option<Layout>

    /** The constructor (item.py:84-105): zoom level 1, no names yet, then a zoom to
        the saved level. */
    constructor (page: Page, savedZoom: nat)
      ensures this.page == page && !bound && !hasThumbnail && stem.None? && fullName.None?
      ensures page.attached ==> (zoomLevel == savedZoom && layout == Some(ZoomLayout(savedZoom))
        && circularVisible == Some(savedZoom == 0) && displayName.None?)
      ensures !page.attached ==> zoomLevel == 1 && layout.None?
    {
      this.page := page;
      zoomLevel := 1;
      stem := None;
      fullName := None;
      displayName := None;
      extension := None;
      extensionVisible := false;
      extensionOpacity := 1;
      additionalTags := None;
      tagsLabelVisible := false;
      bound := false;
      isDir := false;
      isExecutable := false;
      uri := "";
      uriScheme := "";
      hasThumbnail := false;
      circularVisible := None;
      thumbnailVisible := None;
      layout := None;
      new;
      Zoom(savedZoom);
    }

    /** What `bind` records about the kind of file. */
    ghost function Kind(): (bool, bool, bool, string, string)
      reads this
    {
      (bound, isDir, isExecutable, uri, uriScheme)
    }

    /** The name labels and the extension badge. */
    ghost function Labels(): (Option<string>, Option<string>, Option<string>, Option<string>, bool, int)
      reads this
    {
      (fullName, stem, displayName, extension, extensionVisible, extensionOpacity)
    }

    /** The additional-tags label. */
    ghost function TagLabel(): (Option<string>, bool)
      reads this
    {
      (additionalTags, tagsLabelVisible)
    }

    /** The thumbnail and the icon visibilities. */
    ghost function Icons(): (bool, Option<bool>, Option<bool>)
      reads this
    {
      (hasThumbnail, circularVisible, thumbnailVisible)
    }

    /** The `thumbnail_paintable` setter (item.py:188-190): only the paintable changes. */
    method SetThumbnail(present: bool)
      modifies this
      ensures hasThumbnail == present && zoomLevel == old(zoomLevel) && layout == old(layout)
      ensures circularVisible == old(circularVisible) && thumbnailVisible == old(thumbnailVisible)
      ensures Kind() == old(Kind()) && Labels() == old(Labels()) && TagLabel() == old(TagLabel())
    {
      hasThumbnail := present;
    }

    /** `__set_circular`: the circular icon and the thumbnail are never both shown. */
    method SetCircular(circular: bool)
      modifies this
      ensures circularVisible == Some(Circular(zoomLevel, circular))
      ensures thumbnailVisible == Some(!Circular(zoomLevel, circular))
      ensures zoomLevel == old(zoomLevel) && displayName == old(displayName) && layout == old(layout)
      ensures stem == old(stem) && fullName == old(fullName) && hasThumbnail == old(hasThumbnail)
      ensures extensionOpacity == old(extensionOpacity) && bound == old(bound)
      ensures extension == old(extension) && extensionVisible == old(extensionVisible)
      ensures Kind() == old(Kind()) && TagLabel() == old(TagLabel())
    {
      var shown := Circular(zoomLevel, circular);
      circularVisible := Some(shown);
      thumbnailVisible := Some(!shown);
    }

    /** `__zoom` (item.py:556-640): nothing for an orphaned page; otherwise the level,
        the circular icon for an item without a thumbnail, the label, the extension's
        opacity and the layout of the level. */
    method Zoom(z: nat)
      modifies this
      ensures !page.attached ==> (zoomLevel == old(zoomLevel) && layout == old(layout)
        && Labels() == old(Labels()) && Icons() == old(Icons()))
      ensures page.attached ==>
        && zoomLevel == z && layout == Some(ZoomLayout(z))
        && circularVisible == Some(Circular(z, !old(hasThumbnail)))
        && thumbnailVisible == Some(!Circular(z, !old(hasThumbnail)))
        && displayName == Shown(z, old(stem), old(fullName))
        && extensionOpacity == (if z != 0 then 1 else 0)
      ensures stem == old(stem) && fullName == old(fullName) && hasThumbnail == old(hasThumbnail)
      ensures extension == old(extension) && extensionVisible == old(extensionVisible)
      ensures Kind() == old(Kind()) && TagLabel() == old(TagLabel())
    {
      if !page.attached {
        return;
      }
      zoomLevel := z;
      SetCircular(!hasThumbnail);
      if z != 0 {
        displayName := stem;
        extensionOpacity := 1;
      } else {
        displayName := fullName;
        extensionOpacity := 0;
      }
      layout := Some(ZoomLayout(z));
    }

    /** `bind` (item.py:192-283), without the icons and thumbnails. The file's location
        is taken first (item.py:194-195); then a parent outside the home folder on a
        tags page makes `relative_to` raise, and nothing else is set. */
    method Bind(info: Info, home: string) returns (raised: bool)
      modifies this
      ensures raised <==> AdditionalTags(page.tags, info.parentPath, home).NotRelative?
      ensures uri == info.uri && uriScheme == info.uriScheme
      ensures raised ==> bound == old(bound) && isDir == old(isDir) && isExecutable == old(isExecutable)
      ensures raised ==> Labels() == old(Labels()) && TagLabel() == old(TagLabel()) && Icons() == old(Icons())
      ensures !raised ==> Named(info)
      ensures var l := AdditionalTags(page.tags, info.parentPath, home);
        l.Label? ==> additionalTags == Some(l.text) && tagsLabelVisible
      ensures var l := AdditionalTags(page.tags, info.parentPath, home);
        l.NoLabel? ==> additionalTags == old(additionalTags) && tagsLabelVisible == old(tagsLabelVisible)
      ensures zoomLevel == old(zoomLevel) && layout == old(layout)
    {
      uri, uriScheme := info.uri, info.uriScheme;
      var tags := AdditionalTags(page.tags, info.parentPath, home);
      if tags.NotRelative? {
        return true;
      }
      if tags.Label? {
        tagsLabelVisible := true;
        additionalTags := Some(tags.text);
      }
      raised := false;
      BindFile(info);
      BindNames(info);
    }

    /** What a completed `bind` sets from the file's info: the kind of file, then its
        names. */
    ghost predicate Named(info: Info)
      reads this
    {
      uri == info.uri && uriScheme == info.uriScheme && FileBound(info) && NamesBound(info)
    }

    ghost predicate FileBound(info: Info)
      reads this
    {
      bound && isDir == IsDir(info) && isExecutable == Executable(info)
    }

    ghost predicate NamesBound(info: Info)
      reads this
    {
      && fullName == Some(info.displayName)
      && stem == Some(Parts(info).stem) && extension == Parts(info).extension
      && displayName == Shown(zoomLevel, stem, fullName)
      && extensionVisible == (extension.Some? && extension.value != "")
    }

    /** The kind of file `bind` records (item.py:221-224). */
    method BindFile(info: Info)
      modifies this
      ensures FileBound(info)
      ensures uri == old(uri) && uriScheme == old(uriScheme)
      ensures fullName == old(fullName) && stem == old(stem) && extension == old(extension)
      ensures displayName == old(displayName) && extensionVisible == old(extensionVisible)
      ensures additionalTags == old(additionalTags) && tagsLabelVisible == old(tagsLabelVisible)
      ensures zoomLevel == old(zoomLevel) && layout == old(layout) && Icons() == old(Icons())
    {
      bound, isDir, isExecutable := true, IsDir(info), Executable(info);
    }

    /** The names and badge `bind` sets (item.py:225-283). */
    method BindNames(info: Info)
      modifies this
      ensures NamesBound(info)
      ensures bound == old(bound) && isDir == old(isDir) && isExecutable == old(isExecutable)
      ensures uri == old(uri) && uriScheme == old(uriScheme)
      ensures additionalTags == old(additionalTags) && tagsLabelVisible == old(tagsLabelVisible)
      ensures zoomLevel == old(zoomLevel) && layout == old(layout) && Icons() == old(Icons())
    {
      var parts := Parts(info);
      var shown := if zoomLevel != 0 then Some(parts.stem) else Some(info.displayName);
      SetNames(Some(info.displayName), Some(parts.stem), parts.extension, shown);
    }

    /** The labels and badge visibility set together. */
    method SetNames(fullName: Option<string>, stem: Option<string>, extension: Option<string>, displayName: Option<string>)
      modifies this
      ensures this.fullName == fullName && this.stem == stem && this.extension == extension
      ensures this.displayName == displayName && extensionVisible == (extension.Some? && extension.value != "")
      ensures bound == old(bound) && isDir == old(isDir) && isExecutable == old(isExecutable)
      ensures uri == old(uri) && uriScheme == old(uriScheme)
      ensures additionalTags == old(additionalTags) && tagsLabelVisible == old(tagsLabelVisible)
      ensures zoomLevel == old(zoomLevel) && layout == old(layout) && Icons() == old(Icons())
    {
      this.fullName, this.stem, this.extension, this.displayName := fullName, stem, extension, displayName;
      extensionVisible := extension.Some? && extension.value != "";
    }

    /** `__right_click` (item.py:669-697): the page's menu set for this file. */
    method RightClick()
      requires bound
      modifies page
      ensures page.menuItems == MenuItems(isExecutable, isDir, uriScheme, uri)
    {
      var items := BaseMenu;
      if isExecutable {
        items := items + {"execute-file"};
      }
      if isDir {
        items := items + {"open-new-tab", "open-new-window"};
      }
      if uriScheme == "trash" {
        items := items - {"trash", "rename"};
        if CountChar(uri, '/') < 4 {
          items := items + {"trash-restore", "trash-delete"};
        }
      }
      page.menuItems := items;
    }
  }
}
