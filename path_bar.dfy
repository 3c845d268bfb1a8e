/** The path bar of a window (hyperplane/path_bar.py): a row of segments, each but the
    first preceded by a separator, that `update` brings in line with a folder location
    or with a tag list, keeping the longest run of segments that already point at the
    right place. */
module PathBar {
  import opened Text
  import PathSegment

  /** One entry of the list `update` builds: label, icon name, URI and tag, the
      arguments `append` takes. */
  datatype SegmentSpec = SegmentSpec(caption: string, icon: string, uri: Option<string>, tag: Option<string>)

  /** What `update` compares to decide that a shown segment can stay. */
  datatype Key = Key(uri: Option<string>, tag: Option<string>)

  function KeyOf(s: SegmentSpec): Key {
    Key(s.uri, s.tag)
  }

  function Keys(specs: seq<SegmentSpec>): (ks: seq<Key>)
    ensures |ks| == |specs|
  {
    seq(|specs|, i requires 0 <= i < |specs| => KeyOf(specs[i]))
  }

  function Captions(specs: seq<SegmentSpec>): (cs: seq<string>)
    ensures |cs| == |specs|
  {
    seq(|specs|, i requires 0 <= i < |specs| => specs[i].caption)
  }

  /** The display name and first symbolic icon name GIO reports for a location. */
  datatype Described = Described(name: string, icon: string)

  /** The enclosing mount: its name, first symbolic icon name and default location. */
  datatype Mount = Mount(name: string, icon: string, uri: string)

  /** What `update` learns about a folder. `path` is the unquoted path of the URI,
      `localPath` is `get_path()` (`None` when there is none), `schemeRoot` is the
      answer of `query_info` on `<scheme>://` and `mount` that of
      `find_enclosing_mount`, `None` when the call raises `GLib.Error`. */
  datatype FileLocation = FileLocation(
    scheme: string,
    path: string,
    localPath: Option<string>,
    schemeRoot: Option<Described>,
    mount: Option<Mount>)

  /** `shared.home_path` and the URI of `shared.home`. */
  datatype Home = Home(path: string, uri: string)

  /** The two ways of calling `update`: with a folder, or with tags. */
  datatype Target = FileTarget(loc: FileLocation) | TagTarget(tags: seq<string>)

  /** `base_name`, `base_symbolic` and `base_uri`; an unset name or icon is "". */
  datatype Base = Base(name: string, icon: string, uri: Option<string>)

  /** The base after the scheme queries (path_bar.py:166-201): the scheme root for
      `file`, else the scheme root when GIO can describe it, else the mount, else
      nothing (and an error is logged). */
  function QueriedBase(loc: FileLocation): (b: Base)
    ensures loc.scheme == "file" ==> b.uri == Some("file://")
    ensures loc.scheme != "file" && loc.schemeRoot.Some? ==>
      b == Base(loc.schemeRoot.value.name, loc.schemeRoot.value.icon, Some(loc.scheme + "://"))
    ensures loc.scheme != "file" && loc.schemeRoot.None? && loc.mount.Some? ==>
      b == Base(loc.mount.value.name, loc.mount.value.icon, Some(loc.mount.value.uri))
    ensures b.uri.None? <==> LogsError(loc)
  {
    var schemeUri := loc.scheme + "://";
    if loc.scheme == "file" then Base("", "", Some("file://"))
    else if loc.schemeRoot.Some? then Base(loc.schemeRoot.value.name, loc.schemeRoot.value.icon, Some(schemeUri))
    else if loc.mount.Some? then Base(loc.mount.value.name, loc.mount.value.icon, Some(loc.mount.value.uri))
    else Base("", "", None)
  }

  /** Whether `update` logs "Cannot get information for location". */
  predicate LogsError(loc: FileLocation) {
    loc.scheme != "file" && loc.schemeRoot.None? && loc.mount.None?
  }

  /** An f-string renders a missing base URI as the text "None". */
  function UriText(u: Option<string>): string {
    if u.Some? then u.value else "None"
  }

  /** The segment of the part at `i`: its URI is the prefix then the parts up to and
      including `i`, joined by "/". */
  function ComponentAt(prefix: string, parts: seq<string>, i: nat): SegmentSpec
    requires i < |parts|
  {
    SegmentSpec(parts[i], "", Some(prefix + Join(parts[..i + 1], "/")), None)
  }

  /** The segments lines 205-211 build from the first `n` parts: one per non-empty part. */
  function Components(prefix: string, parts: seq<string>, n: nat): seq<SegmentSpec>
    requires n <= |parts|
  {
    if n == 0 then []
    else Components(prefix, parts, n - 1) + (if parts[n - 1] == "" then [] else [ComponentAt(prefix, parts, n - 1)])
  }

  /** The positions of the non-empty parts among the first `n`, in increasing order. */
  function NonEmptyIndices(parts: seq<string>, n: nat): (ix: seq<nat>)
    requires n <= |parts|
    ensures forall k :: 0 <= k < |ix| ==> ix[k] < n && parts[ix[k]] != ""
    ensures forall k, l :: 0 <= k < l < |ix| ==> ix[k] < ix[l]
    ensures forall i :: 0 <= i < n && parts[i] != "" ==> i in ix
  {
    if n == 0 then []
    else NonEmptyIndices(parts, n - 1) + (if parts[n - 1] == "" then [] else [n - 1])
  }

  /** The non-empty strings of a list, in order. */
  function NonEmpty(parts: seq<string>): (r: seq<string>)
    ensures forall k :: 0 <= k < |r| ==> r[k] != ""
  {
    if parts == [] then []
    else NonEmpty(parts[..|parts| - 1]) + (if parts[|parts| - 1] == "" then [] else [parts[|parts| - 1]])
  }

  /** `Path(p).parts` for a POSIX path: the root "/" when the path is absolute, then
      its non-empty components. */
  function PathParts(p: string): seq<string> {
    (if StartsWith(p, "/") then ["/"] else []) + NonEmpty(SplitOn(p, "/"))
  }

  /** `path == home_path or path.is_relative_to(home_path)`, for a present, non-empty
      local path. */
  predicate UnderHome(local: Option<string>, home: string) {
    local.Some? && local.value != "" && PathParts(home) <= PathParts(local.value)
  }

  /** `s[k:]` with Python's slice rules for any integer `k`. */
  function SliceFrom<T>(s: seq<T>, k: int): (r: seq<T>)
    ensures 0 <= k <= |s| ==> r == s[k..]
    ensures k > |s| ==> r == []
  {
    if k < 0 then (if |s| + k < 0 then s else s[|s| + k..])
    else if k > |s| then []
    else s[k..]
  }

  /** The base `update` ends with (path_bar.py:213-226): Home for a local path under the
      home folder, the root for other `file` locations, the queried base otherwise. */
  function FinalBase(loc: FileLocation, home: Home): Base {
    if UnderHome(loc.localPath, home.path) then Base("Home", "user-home-symbolic", Some(home.uri))
    else if loc.scheme == "file" then Base("", "drive-harddisk-symbolic", Some("file:///"))
    else QueriedBase(loc)
  }

  /** The segment list `update` builds for a folder (path_bar.py:163-237). */
  function FileSegments(loc: FileLocation, home: Home): seq<SegmentSpec> {
    var parts := SplitOn(loc.path, "/");
    var comps := Components(UriText(QueriedBase(loc).uri), parts, |parts|);
    var shown := if UnderHome(loc.localPath, home.path) then SliceFrom(comps, |PathParts(home.path)| - 1) else comps;
    var base := FinalBase(loc, home);
    if base.uri.Some? && base.uri.value != "" then [SegmentSpec(base.name, base.icon, base.uri, None)] + shown
    else shown
  }

  /** The segment list for tags (path_bar.py:245): one per tag, no URI, the tag as label. */
  function TagSegments(tags: seq<string>): (segs: seq<SegmentSpec>)
    ensures |segs| == |tags|
  {
    seq(|tags|, i requires 0 <= i < |tags| => SegmentSpec(tags[i], "", None, Some(tags[i])))
  }

  function Wanted(target: Target, home: Home): seq<SegmentSpec> {
    match target
    case FileTarget(loc) => FileSegments(loc, home)
    case TagTarget(tags) => TagSegments(tags)
  }

  /** The segment list of a folder, computed as the source does, with its loop. */
  method BuildFileSegments(loc: FileLocation, home: Home) returns (segs: seq<SegmentSpec>)
    ensures segs == FileSegments(loc, home)
  {
    var queried := QueriedBase(loc);
    var prefix := UriText(queried.uri);
    var parts := SplitOn(loc.path, "/");
    segs := [];
    for index := 0 to |parts|
      invariant segs == Components(prefix, parts, index)
    {
      if parts[index] == "" {
        continue;
      }
      segs := segs + [SegmentSpec(parts[index], "", Some(prefix + Join(parts[..index + 1], "/")), None)];
    }
    var base := queried;
    if UnderHome(loc.localPath, home.path) {
      segs := SliceFrom(segs, |PathParts(home.path)| - 1);
      base := Base("Home", "user-home-symbolic", Some(home.uri));
    } else if loc.scheme == "file" {
      base := Base("", "drive-harddisk-symbolic", Some("file:///"));
    }
    if base.uri.Some? && base.uri.value != "" {
      segs := [SegmentSpec(base.name, base.icon, base.uri, None)] + segs;
    }
  }

  // ---------------------------------------------------------------- shape of the list

  /** Components are exactly the non-empty parts, in order, each with the URI of its
      position. */
  lemma {:induction false} ComponentsShape(prefix: string, parts: seq<string>, n: nat)
    requires n <= |parts|
    ensures |Components(prefix, parts, n)| == |NonEmptyIndices(parts, n)|
    ensures forall k :: 0 <= k < |NonEmptyIndices(parts, n)| ==>
      Components(prefix, parts, n)[k] == ComponentAt(prefix, parts, NonEmptyIndices(parts, n)[k])
  {
    if n > 0 {
      ComponentsShape(prefix, parts, n - 1);
      ShapeStep(prefix, parts, n, Components(prefix, parts, n - 1), NonEmptyIndices(parts, n - 1));
    }
  }

  /** One more part keeps components and indices in step. */
  lemma ShapeStep(prefix: string, parts: seq<string>, n: nat, c: seq<SegmentSpec>, ix: seq<nat>)
    requires 0 < n <= |parts|
    requires c == Components(prefix, parts, n - 1) && ix == NonEmptyIndices(parts, n - 1)
    requires |c| == |ix| && forall k :: 0 <= k < |ix| ==> c[k] == ComponentAt(prefix, parts, ix[k])
    ensures |Components(prefix, parts, n)| == |NonEmptyIndices(parts, n)|
    ensures forall k :: 0 <= k < |NonEmptyIndices(parts, n)| ==>
      Components(prefix, parts, n)[k] == ComponentAt(prefix, parts, NonEmptyIndices(parts, n)[k])
  {
    var c', ix' := Components(prefix, parts, n), NonEmptyIndices(parts, n);
    if parts[n - 1] != "" {
      assert c' == c + [ComponentAt(prefix, parts, n - 1)];
      assert ix' == ix + [n - 1];
      forall k | 0 <= k < |ix'|
        ensures c'[k] == ComponentAt(prefix, parts, ix'[k])
      {
        if k < |ix| {
          assert c'[k] == c[k] && ix'[k] == ix[k];
        }
      }
    } else {
      assert c' == c && ix' == ix;
    }
  }

  /** The labels of the components are the non-empty parts. */
  lemma {:induction false} ComponentCaptions(prefix: string, parts: seq<string>, n: nat)
    requires n <= |parts|
    ensures Captions(Components(prefix, parts, n)) == NonEmpty(parts[..n])
  {
    if n > 0 {
      ComponentCaptions(prefix, parts, n - 1);
      var pre := parts[..n];
      assert pre[..|pre| - 1] == parts[..n - 1];
      var c := Components(prefix, parts, n - 1);
      var tail := if parts[n - 1] == "" then [] else [ComponentAt(prefix, parts, n - 1)];
      assert Captions(c + tail) == Captions(c) + Captions(tail);
    }
  }

  /** `sep.join(a + b)` is the two joins around one separator. */
  lemma {:induction false} JoinConcat(a: seq<string>, b: seq<string>, sep: string)
    requires |a| >= 1 && |b| >= 1
    ensures Join(a + b, sep) == Join(a, sep) + sep + Join(b, sep)
    decreases |a|
  {
    if |a| == 1 {
      assert (a + b)[1..] == b;
    } else {
      assert (a + b)[1..] == a[1..] + b;
      JoinConcat(a[1..], b, sep);
    }
  }

  /** The URI built for a later part extends the URI built for an earlier one by a
      "/" and more. */
  lemma ComponentUriExtends(prefix: string, parts: seq<string>, i: nat, j: nat)
    requires i < j < |parts|
    ensures StartsWith(prefix + Join(parts[..j + 1], "/"), prefix + Join(parts[..i + 1], "/") + "/")
  {
    assert parts[..j + 1] == parts[..i + 1] + parts[i + 1..j + 1];
    JoinConcat(parts[..i + 1], parts[i + 1..j + 1], "/");
    var a := prefix + Join(parts[..i + 1], "/") + "/";
    assert prefix + Join(parts[..j + 1], "/") == a + Join(parts[i + 1..j + 1], "/");
  }

  /** Each component segment points into the folder of the one before it: its URI is
      the previous URI, a "/", and more. */
  lemma ComponentsAreNested(prefix: string, parts: seq<string>, k: nat)
    requires k + 1 < |Components(prefix, parts, |parts|)|
    ensures var c := Components(prefix, parts, |parts|);
      c[k].uri.Some? && c[k + 1].uri.Some? && StartsWith(c[k + 1].uri.value, c[k].uri.value + "/")
  {
    ComponentsShape(prefix, parts, |parts|);
    var ix := NonEmptyIndices(parts, |parts|);
    ComponentUriExtends(prefix, parts, ix[k], ix[k + 1]);
  }

  /** When the path does not end with "/", the last component points at the location
      itself. */
  lemma LastComponentIsLocation(prefix: string, path: string)
    requires path != [] && path[|path| - 1] != '/'
    ensures var c := Components(prefix, SplitOn(path, "/"), |SplitOn(path, "/")|);
      |c| >= 1 && c[|c| - 1].uri == Some(prefix + path)
  {
    var parts := SplitOn(path, "/");
    var n := |parts|;
    JoinSplit(path, "/");
    LastPartOfSplit(path);
    assert parts[..n] == parts;
    var c := Components(prefix, parts, n);
    assert c == Components(prefix, parts, n - 1) + [ComponentAt(prefix, parts, n - 1)];
    assert c[|c| - 1].uri == Some(prefix + Join(parts[..n], "/"));
  }

  /** The last part of a split on "/" is empty only when the text ends with "/" or is
      empty. */
  lemma LastPartOfSplit(path: string)
    requires path != [] && path[|path| - 1] != '/'
    ensures var parts := SplitOn(path, "/"); parts[|parts| - 1] != ""
  {
    var parts := SplitOn(path, "/");
    JoinSplit(path, "/");
    if |parts| > 1 {
      JoinConcat(parts[..|parts| - 1], [parts[|parts| - 1]], "/");
      assert parts == parts[..|parts| - 1] + [parts[|parts| - 1]];
    }
  }

  /** Splitting an absolute path on "/" and dropping the empty parts gives its
      components after the root. */
  lemma AbsoluteParts(p: string)
    requires StartsWith(p, "/")
    ensures |PathParts(p)| >= 1 && NonEmpty(SplitOn(p, "/")) == PathParts(p)[1..]
  {
  }

  lemma CaptionsFrom(specs: seq<SegmentSpec>, k: nat)
    requires k <= |specs|
    ensures Captions(specs[k..]) == Captions(specs)[k..]
  {
  }

  /** Under the home folder the bar reads Home, then exactly the components of the path
      below the home folder. */
  lemma HomeSegments(loc: FileLocation, home: Home)
    requires loc.localPath == Some(loc.path) && StartsWith(loc.path, "/")
    requires StartsWith(home.path, "/") && home.uri != ""
    requires UnderHome(loc.localPath, home.path)
    ensures var segs := FileSegments(loc, home);
      |segs| >= 1 && segs[0] == SegmentSpec("Home", "user-home-symbolic", Some(home.uri), None)
      && Captions(segs[1..]) == PathParts(loc.path)[|PathParts(home.path)|..]
  {
    var parts := SplitOn(loc.path, "/");
    var comps := Components(UriText(QueriedBase(loc).uri), parts, |parts|);
    var h := |PathParts(home.path)|;
    PathComponentCaptions(loc);
    AbsoluteParts(home.path);
    assert h <= |PathParts(loc.path)|;
    CaptionsFrom(comps, h - 1);
    HomeShown(loc, home, comps, h);
  }

  /** The captions of a local path's components are its parts after the root. */
  lemma PathComponentCaptions(loc: FileLocation)
    requires StartsWith(loc.path, "/")
    ensures var parts := SplitOn(loc.path, "/");
      Captions(Components(UriText(QueriedBase(loc).uri), parts, |parts|)) == PathParts(loc.path)[1..]
  {
    var parts := SplitOn(loc.path, "/");
    ComponentCaptions(UriText(QueriedBase(loc).uri), parts, |parts|);
    assert parts[..|parts|] == parts;
    AbsoluteParts(loc.path);
  }

  /** Under the home folder the Home segment replaces the first `h - 1` components. */
  lemma HomeShown(loc: FileLocation, home: Home, comps: seq<SegmentSpec>, h: nat)
    requires home.uri != "" && UnderHome(loc.localPath, home.path)
    requires comps == Components(UriText(QueriedBase(loc).uri), SplitOn(loc.path, "/"), |SplitOn(loc.path, "/")|)
    requires h == |PathParts(home.path)| && 1 <= h <= |comps| + 1
    ensures FileSegments(loc, home) == [SegmentSpec("Home", "user-home-symbolic", Some(home.uri), None)] + comps[h - 1..]
  {
  }

  /** A local folder outside the home folder starts at the drive root. */
  lemma RootSegment(loc: FileLocation, home: Home)
    requires loc.scheme == "file" && !UnderHome(loc.localPath, home.path)
    ensures var segs := FileSegments(loc, home);
      |segs| >= 1 && segs[0] == SegmentSpec("", "drive-harddisk-symbolic", Some("file:///"), None)
  {
  }

  /** When neither the scheme root nor the mount can be described, no base segment is
      added and every segment URI is built from the text "None". */
  lemma UnresolvedBaseUri(loc: FileLocation, home: Home)
    requires LogsError(loc) && !UnderHome(loc.localPath, home.path)
    ensures var segs := FileSegments(loc, home);
      forall k :: 0 <= k < |segs| ==> segs[k].uri.Some? && StartsWith(segs[k].uri.value, "None")
  {
    var parts := SplitOn(loc.path, "/");
    ComponentsShape("None", parts, |parts|);
  }

  // ---------------------------------------------------------------- the common prefix

  /** The length of the longest common prefix. */
  function CommonPrefix<T(==)>(a: seq<T>, b: seq<T>): (k: nat)
    ensures k <= |a| && k <= |b| && a[..k] == b[..k]
    ensures k < |a| && k < |b| ==> a[k] != b[k]
  {
    if a == [] || b == [] || a[0] != b[0] then 0
    else
      var k := 1 + CommonPrefix(a[1..], b[1..]);
      assert a[..k] == [a[0]] + a[1..][..k - 1];
      assert b[..k] == [b[0]] + b[1..][..k - 1];
      k
  }

  /** Any shared prefix that ends at a difference or at the end of a list is the
      longest common prefix. */
  lemma CommonPrefixUnique<T>(a: seq<T>, b: seq<T>, k: nat)
    requires k <= |a| && k <= |b| && a[..k] == b[..k]
    requires k == |a| || k == |b| || a[k] != b[k]
    ensures CommonPrefix(a, b) == k
  {
  }

  // ---------------------------------------------------------------- the widget

  function SeparatorText(tagMode: bool): string {
    if tagMode then "+" else "/"
  }

  function SpecOf(s: PathSegment.Segment): SegmentSpec {
    SegmentSpec(s.labelText, s.iconName, s.uri, s.tag)
  }

  function SpecsOf(segs: seq<PathSegment.Segment>): (r: seq<SegmentSpec>)
    ensures |r| == |segs| && forall i :: 0 <= i < |segs| ==> r[i] == SpecOf(segs[i])
  {
    seq(|segs|, i requires 0 <= i < |segs| => SpecOf(segs[i]))
  }

  function Elements(s: seq<PathSegment.Segment>): set<PathSegment.Segment> {
    set x | x in s
  }

  /** How many segments `remove(n)` keeps out of `len`. */
  function Kept(len: nat, n: nat): nat {
    if n < len then len - n else 0
  }

  /** From which position `remove(n)` also drops the separator entries: the first
      segment's entry stays, because its missing separator ends the loop. */
  function FirstDroppedKey(len: nat, n: nat): nat {
    if n < len then len - n else if len == 0 then 0 else 1
  }

  /** How many of the shown segments `update` keeps: none after a switch between
      folder and tag mode, else the longest run whose URI and tag already match. */
  function KeptByUpdate(tagMode: bool, shown: seq<SegmentSpec>, target: Target, home: Home): nat {
    if tagMode != target.TagTarget? then 0 else CommonPrefix(Keys(shown), Keys(Wanted(target, home)))
  }

  /** The separator the segment at position `i` has. */
  function SeparatorBefore(i: nat, tagMode: bool): Option<string> {
    if i == 0 then None else Some(SeparatorText(tagMode))
  }

  class PathBar {
    var segments: seq<PathSegment.Segment>
    /** The separator shown before each segment, keyed by the segment; `None` for the
        first one. */
    var separators: map<PathSegment.Segment, Option<string>>
    /** `tags`: whether the bar shows tags rather than a folder. */
    var tagMode: bool

    /** Distinct segments, each with its separator entry; the first without a separator
        and the others with "+" in tag mode or "/" in folder mode. */
    ghost predicate Shape()
      reads this, segments
    {
      && (forall i, j :: 0 <= i < j < |segments| ==> segments[i] != segments[j])
      && (forall i :: 0 <= i < |segments| ==>
            && segments[i] in separators
            && separators[segments[i]] == SeparatorBefore(i, tagMode))
    }

    /** In folder mode only the last segment is active, in tag mode all are. */
    ghost predicate ActiveRule()
      reads this, segments
    {
      forall i :: 0 <= i < |segments| ==> segments[i].active == (tagMode || i == |segments| - 1)
    }

    ghost predicate Valid()
      reads this, segments
    {
      Shape() && ActiveRule()
    }

    /** What the bar shows: each segment's label, icon, URI and tag. */
    function Shown(): seq<SegmentSpec>
      reads this
    {
      SpecsOf(segments)
    }

    constructor ()
      ensures Valid() && segments == [] && separators == map[] && !tagMode
    {
      segments := [];
      separators := map[];
      tagMode := false;
    }

    /** `remove(n)` (path_bar.py:60-91): pop `n` segments with their separators,
        stopping at the first segment, then make the new last segment the active one. */
    method Remove(n: nat)
      requires Valid()
      requires n == 0 || |segments| > 0
      modifies this, segments
      ensures Valid()
      ensures tagMode == old(tagMode)
      ensures segments == old(segments)[..Kept(|old(segments)|, n)]
      ensures separators == old(separators) - Elements(old(segments)[FirstDroppedKey(|old(segments)|, n)..])
    {
      var stopped := PopSegments(n);
      if stopped || tagMode {
        return;
      }
      SettleActive();
    }

    /** The loop of `remove` (path_bar.py:62-82); `stopped` when it reached the first
        segment, whose missing separator ends the method. */
    method PopSegments(n: nat) returns (stopped: bool)
      requires Shape()
      requires n == 0 || |segments| > 0
      modifies this
      ensures Shape()
      ensures tagMode == old(tagMode)
      ensures segments == old(segments)[..Kept(|old(segments)|, n)]
      ensures separators == old(separators) - Elements(old(segments)[FirstDroppedKey(|old(segments)|, n)..])
      ensures stopped ==> segments == []
      ensures !stopped ==> |segments| == |old(segments)| - n
    {
      ghost var len := |segments|;
      var k := 0;
      while k < n
        invariant 0 <= k <= n
        invariant len == |old(segments)|
        invariant len == 0 ==> k == 0
        invariant len > 0 ==> k < len
        invariant segments == old(segments)[..len - k]
        invariant separators == old(separators) - Elements(old(segments)[len - k..])
        invariant tagMode == old(tagMode)
      {
        var child := segments[|segments| - 1];
        assert old(segments)[len - k - 1..] == [child] + old(segments)[len - k..];
        segments := segments[..|segments| - 1];
        if separators[child].None? {
          assert len - k - 1 == 0;
          return true;
        }
        separators := separators - {child};
        k := k + 1;
      }
      assert forall i :: 0 <= i < |segments| ==> segments[i] !in Elements(old(segments)[len - k..]);
      return false;
    }

    /** The end of `remove` (path_bar.py:84-91) and of `append` (path_bar.py:137-145)
        in folder mode: the last segment becomes active and the one before it inactive. */
    method SettleActive()
      requires Shape() && !tagMode
      requires forall i :: 0 <= i < |segments| - 2 ==> !segments[i].active
      modifies segments
      ensures Valid()
    {
      if |segments| >= 1 {
        segments[|segments| - 1].SetActive(true);
      }
      if |segments| >= 2 {
        segments[|segments| - 2].SetActive(false);
      }
    }

    /** `append` (path_bar.py:93-145): a new segment, preceded by a separator unless it
        is the first; in folder mode it becomes the only active one. */
    method Append(spec: SegmentSpec)
      requires Valid()
      modifies this, segments
      ensures Valid()
      ensures tagMode == old(tagMode)
      ensures |segments| == |old(segments)| + 1 && segments[..|old(segments)|] == old(segments)
      ensures fresh(segments[|old(segments)|]) && SpecOf(segments[|old(segments)|]) == spec
      ensures separators == old(separators)[segments[|old(segments)|] := SeparatorBefore(|old(segments)|, tagMode)]
    {
      var segment := new PathSegment.Segment(spec.caption, spec.icon, spec.uri, spec.tag);
      Attach(segment);
      if tagMode {
        return;
      }
      SettleActive();
    }

    /** The segment goes at the end, after a separator unless it is the first. */
    method Attach(segment: PathSegment.Segment)
      requires Shape() && segment !in segments
      modifies this
      ensures Shape() && tagMode == old(tagMode)
      ensures segments == old(segments) + [segment]
      ensures separators == old(separators)[segment := SeparatorBefore(|old(segments)|, tagMode)]
    {
      var separator := if segments != [] then Some(SeparatorText(tagMode)) else None;
      separators, segments := separators[segment := separator], segments + [segment];
    }

    /** `purge` (path_bar.py:147-153). */
    method Purge()
      modifies this
      ensures Valid() && segments == [] && separators == map[] && tagMode == old(tagMode)
    {
      segments := [];
      separators := map[];
    }

    /** `update` (path_bar.py:155-269) for a folder or a non-empty tag list: the bar then
        shows the wanted list, the segments of the longest matching run are the old
        objects, and every segment after it is new. */
    method Update(target: Target, home: Home)
      requires Valid()
      requires target.TagTarget? ==> target.tags != []
      modifies this, segments
      ensures Valid()
      ensures tagMode == target.TagTarget?
      ensures Keys(Shown()) == Keys(Wanted(target, home))
      ensures var k := KeptByUpdate(old(tagMode), old(Shown()), target, home);
        && k <= |old(segments)| && k <= |segments|
        && segments[..k] == old(segments)[..k]
        && Shown()[k..] == Wanted(target, home)[k..]
        && forall i :: k <= i < |segments| ==> fresh(segments[i])
    {
      var wanted: seq<SegmentSpec>;
      match target {
        case FileTarget(loc) =>
          if tagMode {
            Purge();
          }
          tagMode := false;
          wanted := BuildFileSegments(loc, home);
        case TagTarget(tags) =>
          if !tagMode {
            Purge();
          }
          tagMode := true;
          wanted := TagSegments(tags);
      }
      Reconcile(wanted);
    }

    /** Lines 247-269 of `update`: trim the surplus, then the loop. */
    method Reconcile(wanted: seq<SegmentSpec>)
      requires Valid()
      modifies this, segments
      ensures Valid()
      ensures tagMode == old(tagMode)
      ensures Keys(Shown()) == Keys(wanted)
      ensures var k := CommonPrefix(Keys(old(Shown())), Keys(wanted));
        && segments[..k] == old(segments)[..k]
        && Shown()[k..] == wanted[k..]
        && forall i :: k <= i < |segments| ==> fresh(segments[i])
    {
      if |segments| > |wanted| {
        Remove(|segments| - |wanted|);
      }
      ghost var trimmed := segments;
      assert |trimmed| <= |wanted| && trimmed == old(segments)[..|trimmed|];
      assert |trimmed| < |old(segments)| ==> |trimmed| == |wanted|;
      KeysOfPrefix(old(segments), |trimmed|);
      Diff(wanted);
      CommonPrefixFromTrim(Keys(old(Shown())), Keys(SpecsOf(trimmed)), Keys(wanted));
    }

    /** The loop of `update` (path_bar.py:250-269), its `append` flag written as the two
        phases it separates: skip the segments whose URI and tag already match; at the
        first difference, if any, drop the rest and append the remaining wanted ones. */
    method Diff(wanted: seq<SegmentSpec>)
      requires Valid() && |segments| <= |wanted|
      modifies this, segments
      ensures Valid()
      ensures tagMode == old(tagMode)
      ensures Keys(Shown()) == Keys(wanted)
      ensures var k := CommonPrefix(Keys(old(Shown())), Keys(wanted));
        && segments[..k] == old(segments)[..k]
        && Shown()[k..] == wanted[k..]
        && forall i :: k <= i < |segments| ==> fresh(segments[i])
    {
      var index := MatchingRun(wanted);
      if index == |wanted| {
        assert Keys(Shown()) == Keys(Shown())[..index] && Keys(wanted) == Keys(wanted)[..index];
        return;
      }
      Replace(wanted, index);
    }

    /** The second phase: from the first difference on, the shown segments are dropped
        and the wanted ones appended. */
    method Replace(wanted: seq<SegmentSpec>, index: nat)
      requires Valid() && index <= |segments| && index <= |wanted|
      requires Keys(Shown())[..index] == Keys(wanted)[..index]
      modifies this, segments
      ensures Valid()
      ensures tagMode == old(tagMode)
      ensures Keys(Shown()) == Keys(wanted)
      ensures segments[..index] == old(segments)[..index]
      ensures Shown()[index..] == wanted[index..]
      ensures forall i :: index <= i < |segments| ==> fresh(segments[i])
    {
      Remove(|segments| - index);
      ghost var kept := segments;
      assert kept == old(segments)[..index];
      KeysOfPrefix(old(segments), index);
      AppendAll(wanted, index);
      KeysOfSplice(SpecsOf(kept), SpecsOf(segments), wanted, index);
      assert segments[..index] == old(segments)[..index];
    }

    /** The first phase: how many shown segments already have the wanted URI and tag. */
    method MatchingRun(wanted: seq<SegmentSpec>) returns (index: nat)
      ensures index == CommonPrefix(Keys(Shown()), Keys(wanted))
    {
      index := 0;
      while index < |wanted| && index < |segments| && KeyOf(SpecOf(segments[index])) == KeyOf(wanted[index])
        invariant index <= |segments| && index <= |wanted|
        invariant Keys(Shown())[..index] == Keys(wanted)[..index]
      {
        assert Keys(Shown())[..index + 1] == Keys(Shown())[..index] + [KeyOf(SpecOf(segments[index]))];
        assert Keys(wanted)[..index + 1] == Keys(wanted)[..index] + [KeyOf(wanted[index])];
        index := index + 1;
      }
      CommonPrefixUnique(Keys(Shown()), Keys(wanted), index);
    }

    /** Append `wanted[from..]` one by one. */
    method AppendAll(wanted: seq<SegmentSpec>, from: nat)
      requires Valid() && |segments| == from <= |wanted|
      modifies this, segments
      ensures Valid()
      ensures tagMode == old(tagMode)
      ensures |segments| == |wanted| && segments[..from] == old(segments)
      ensures SpecsOf(segments)[from..] == wanted[from..]
      ensures forall i :: from <= i < |segments| ==> fresh(segments[i])
    {
      for i := from to |wanted|
        invariant Valid()
        invariant tagMode == old(tagMode)
        invariant |segments| == i && segments[..from] == old(segments)
        invariant SpecsOf(segments)[from..] == wanted[from..i]
        invariant forall j :: from <= j < |segments| ==> fresh(segments[j])
      {
        ghost var before := segments;
        Append(wanted[i]);
        assert SpecsOf(segments) == SpecsOf(before) + [wanted[i]];
        assert wanted[from..i + 1] == wanted[from..i] + [wanted[i]];
      }
    }
  }

  /** The keys of the first `k` segments are the first `k` keys. */
  lemma KeysOfPrefix(segs: seq<PathSegment.Segment>, k: nat)
    requires k <= |segs|
    ensures Keys(SpecsOf(segs[..k])) == Keys(SpecsOf(segs))[..k]
  {
  }

  /** A list that agrees with `wanted` in its keys up to `k` and in everything after
      has the same keys. */
  lemma KeysOfSplice(kept: seq<SegmentSpec>, shown: seq<SegmentSpec>, wanted: seq<SegmentSpec>, k: nat)
    requires |kept| == k <= |shown| == |wanted| && shown[..k] == kept
    requires Keys(kept) == Keys(wanted)[..k] && shown[k..] == wanted[k..]
    ensures Keys(shown) == Keys(wanted)
  {
    forall i | 0 <= i < |shown|
      ensures Keys(shown)[i] == Keys(wanted)[i]
    {
      if i < k {
        assert shown[i] == kept[i];
      } else {
        assert shown[i] == shown[k..][i - k];
      }
    }
  }

  /** The run kept against the trimmed list is the longest common prefix of the
      untrimmed list and the wanted one. */
  lemma CommonPrefixFromTrim<T>(start: seq<T>, trimmed: seq<T>, wanted: seq<T>)
    requires |trimmed| <= |start| && trimmed == start[..|trimmed|]
    requires |trimmed| <= |wanted| && (|trimmed| < |start| ==> |trimmed| == |wanted|)
    ensures CommonPrefix(start, wanted) == CommonPrefix(trimmed, wanted)
  {
    var k := CommonPrefix(trimmed, wanted);
    assert start[..k] == trimmed[..k];
    CommonPrefixUnique(start, wanted, k);
  }
}
