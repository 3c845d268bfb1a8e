/** The location entry (hyperplane/path_entry.py): the text it shows for a folder or
    a tag list, how the text typed into it is turned into tags or a folder when it is
    activated, and the inline completion that runs each time the text changes. */
module PathEntry {
  import opened Text

  // ---------------------------------------------------------------- showing a location

  /** The tag text: `//` before, between and after the tags. */
  function TagText(tags: seq<string>): string {
    "//" + Join(tags, "//") + "//"
  }

  /** What `get_gfile_path(gfile, uri_fallback=True)` gives for a `file` location: a
      path object, the URI string it falls back to, or `FileNotFoundError`. */
  datatype PathLookup = AsPath(path: string) | AsString(text: string) | NotFound

  /** A folder as `new_path` sees it: its URI scheme, its URI after `unquote`, and the
      path lookup (consulted only for the `file` scheme). */
  datatype Folder = Folder(scheme: string, unquotedUri: string, lookup: PathLookup)

  /** `new_path` (path_entry.py:53-81): the text the entry is set to, or `None` when
      the text is left as it is. */
  function NewPathText(tags: seq<string>, gfile: Option<Folder>): (r: Option<string>)
    ensures tags != [] ==> r == Some(TagText(tags))
    ensures tags == [] && gfile.None? ==> r.None?
    ensures tags == [] && gfile.Some? ==> r.Some?
  {
    if tags != [] then Some(TagText(tags))
    else if gfile.None? then None
    else
      var f := gfile.value;
      if f.scheme == "file" then
        match f.lookup
        case AsPath(p) => Some(PathText(p))
        case AsString(s) => Some(s)
        case NotFound => Some(f.unquotedUri)
      else Some(f.unquotedUri)
  }

  /** A path object is shown with a trailing separator unless it is the root. */
  function PathText(p: string): (r: string)
    ensures p == "/" ==> r == "/"
    ensures p != "/" ==> r == p + "/"
  {
    if p == "/" then p else p + "/"
  }

  /** A local folder's text always ends with the separator, and reads as the folder's
      path once that separator is taken off (except for the root, which is all
      separator). */
  lemma LocalFolderText(p: string, uri: string)
    ensures var r := NewPathText([], Some(Folder("file", uri, AsPath(p))));
      r.Some? && EndsWith(r.value, "/") && (p != "/" ==> r.value[..|r.value| - 1] == p)
  {
  }

  // ---------------------------------------------------------------- reading tags back

  /** The tag names in a tag text: outer slashes stripped, then split on `//`. */
  function TagNames(text: string): seq<string> {
    SplitOn(RStrip(LStrip(text, '/'), '/'), "//")
  }

  /** The registry tags named in `names`, in registry order (path_entry.py:160-164). */
  function Chosen(registry: seq<string>, names: seq<string>): (r: seq<string>)
    ensures |r| <= |registry|
    ensures forall t :: t in r <==> t in registry && t in names
  {
    if registry == [] then []
    else (if registry[0] in names then [registry[0]] else []) + Chosen(registry[1..], names)
  }

  /** The comprehension keeps the registry's order and multiplicity: choosing from two
      halves of the registry chooses from each half in turn. */
  lemma {:induction false} ChosenConcat(a: seq<string>, b: seq<string>, names: seq<string>)
    ensures Chosen(a + b, names) == Chosen(a, names) + Chosen(b, names)
    decreases |a|
  {
    if a == [] {
      assert a + b == b;
    } else {
      assert (a + b)[0] == a[0];
      assert (a + b)[1..] == a[1..] + b;
      ChosenConcat(a[1..], b, names);
    }
  }

  /** `lstrip` gives back the text after a run of the stripped character when that
      text does not start with it. */
  lemma {:induction false} LStripRun(run: string, s: string, c: char)
    requires forall i :: 0 <= i < |run| ==> run[i] == c
    requires s == [] || s[0] != c
    ensures LStrip(run + s, c) == s
    decreases |run|
  {
    if run == [] {
      assert run + s == s;
    } else {
      assert (run + s)[1..] == run[1..] + s;
      LStripRun(run[1..], s, c);
    }
  }

  /** The same for `rstrip`. */
  lemma {:induction false} RStripRun(s: string, run: string, c: char)
    requires forall i :: 0 <= i < |run| ==> run[i] == c
    requires s == [] || s[|s| - 1] != c
    ensures RStrip(s + run, c) == s
    decreases |run|
  {
    if run == [] {
      assert s + run == s;
    } else {
      assert (s + run)[..|s + run| - 1] == s + run[..|run| - 1];
      RStripRun(s, run[..|run| - 1], c);
    }
  }

  /** Joining non-empty parts keeps the first character of the first part and the
      last character of the last part at the ends. */
  lemma {:induction false} JoinEnds(parts: seq<string>, sep: string)
    requires |parts| >= 1 && NoEmptyTag(parts)
    ensures var j := Join(parts, sep);
      j != [] && j[0] == parts[0][0] && j[|j| - 1] == parts[|parts| - 1][|parts[|parts| - 1]| - 1]
    decreases |parts|
  {
    if |parts| > 1 {
      JoinEnds(parts[1..], sep);
    }
  }

  predicate NoEmptyTag(tags: seq<string>) {
    forall i :: 0 <= i < |tags| ==> tags[i] != ""
  }

  /** The tag names of a tag text are the tags it was written from, as long as they
      are non-empty and hold no "/". */
  lemma TagNamesRoundTrip(tags: seq<string>)
    requires |tags| >= 1 && NoEmptyTag(tags) && NoPartHas(tags, '/')
    ensures TagNames(TagText(tags)) == tags
  {
    var j := Join(tags, "//");
    JoinEnds(tags, "//");
    assert tags[0][0] in tags[0];
    var last := tags[|tags| - 1];
    assert last[|last| - 1] in last;
    assert TagText(tags) == "//" + (j + "//");
    LStripRun("//", j + "//", '/');
    RStripRun(j, "//", '/');
    SplitJoin(tags, "//");
  }

  /** Writing tags and reading them back picks out exactly the registry tags among
      them, in registry order; when they are all registered, all of them. */
  lemma TagTextRoundTrip(tags: seq<string>, registry: seq<string>)
    requires |tags| >= 1 && NoEmptyTag(tags) && NoPartHas(tags, '/')
    ensures Chosen(registry, TagNames(TagText(tags))) == Chosen(registry, tags)
    ensures (forall t :: t in tags ==> t in registry) ==>
      forall t :: t in Chosen(registry, TagNames(TagText(tags))) <==> t in tags
  {
    TagNamesRoundTrip(tags);
  }

  // ---------------------------------------------------------------- percent-quoting

  /** The characters `quote(s, safe="/")` leaves alone. */
  predicate QuoteSafe(c: char) {
    ('a' <= c <= 'z') || ('A' <= c <= 'Z') || ('0' <= c <= '9') || c == '_' || c == '.' || c == '-' || c == '~' || c == '/'
  }

  /** The UTF-8 encoding of a character. */
  function Utf8(c: char): (bytes: seq<nat>)
    ensures 1 <= |bytes| <= 4 && forall i :: 0 <= i < |bytes| ==> bytes[i] < 256
  {
    var n := c as int;
    if n < 0x80 then [n]
    else if n < 0x800 then [0xC0 + n / 64, 0x80 + n % 64]
    else if n < 0x10000 then [0xE0 + n / 4096, 0x80 + (n / 64) % 64, 0x80 + n % 64]
    else [0xF0 + n / 262144, 0x80 + (n / 4096) % 64, 0x80 + (n / 64) % 64, 0x80 + n % 64]
  }

  function HexDigit(d: nat): char
    requires d < 16
  {
    "0123456789ABCDEF"[d]
  }

  /** One byte as `%XX` with upper-case hex digits. */
  function Escape(b: nat): (r: string)
    requires b < 256
    ensures |r| == 3 && r[0] == '%'
  {
    ['%', HexDigit(b / 16), HexDigit(b % 16)]
  }

  function EscapeAll(bytes: seq<nat>): (r: string)
    requires forall i :: 0 <= i < |bytes| ==> bytes[i] < 256
    ensures |r| == 3 * |bytes|
  {
    if bytes == [] then [] else Escape(bytes[0]) + EscapeAll(bytes[1..])
  }

  /** `urllib.parse.quote(s)` with the default `safe="/"`. */
  function Quote(s: string): string {
    if s == [] then []
    else (if QuoteSafe(s[0]) then [s[0]] else EscapeAll(Utf8(s[0]))) + Quote(s[1..])
  }

  /** What quoting can produce: safe characters, `%` and hex digits, and so never a ":". */
  predicate QuotedChar(c: char) {
    QuoteSafe(c) || c == '%'
  }

  lemma {:induction false} EscapeAllQuoted(bytes: seq<nat>)
    requires forall i :: 0 <= i < |bytes| ==> bytes[i] < 256
    ensures forall i :: 0 <= i < |EscapeAll(bytes)| ==> QuotedChar(EscapeAll(bytes)[i])
    decreases |bytes|
  {
    if bytes != [] {
      EscapeAllQuoted(bytes[1..]);
      var e := Escape(bytes[0]);
      assert QuotedChar(e[1]) && QuotedChar(e[2]);
    }
  }

  lemma {:induction false} QuoteOutput(s: string)
    ensures forall i :: 0 <= i < |Quote(s)| ==> QuotedChar(Quote(s)[i])
    decreases |s|
  {
    if s != [] {
      QuoteOutput(s[1..]);
      if !QuoteSafe(s[0]) {
        EscapeAllQuoted(Utf8(s[0]));
      }
    }
  }

  /** Text made only of safe characters is left unchanged. */
  lemma {:induction false} QuoteSafeText(s: string)
    requires forall i :: 0 <= i < |s| ==> QuoteSafe(s[i])
    ensures Quote(s) == s
    decreases |s|
  {
    if s != [] {
      QuoteSafeText(s[1..]);
    }
  }

  // ---------------------------------------------------------------- the URI scheme

  function LowerChar(c: char): char {
    if 'A' <= c <= 'Z' then (c as int + 32) as char else c
  }

  function Lower(s: string): (r: string)
    ensures |r| == |s| && forall i :: 0 <= i < |s| ==> r[i] == LowerChar(s[i])
  {
    if s == [] then [] else [LowerChar(s[0])] + Lower(s[1..])
  }

  predicate AsciiLetter(c: char) {
    ('a' <= c <= 'z') || ('A' <= c <= 'Z')
  }

  /** The characters `urlparse` accepts in a scheme. */
  predicate SchemeChar(c: char) {
    AsciiLetter(c) || ('0' <= c <= '9') || c == '+' || c == '-' || c == '.'
  }

  /** The index of the first ":", or `|s|` when there is none. */
  function ColonIndex(s: string): (i: nat)
    ensures i <= |s| && (i < |s| ==> s[i] == ':')
    ensures forall j :: 0 <= j < i ==> s[j] != ':'
  {
    if s == [] then 0 else if s[0] == ':' then 0 else 1 + ColonIndex(s[1..])
  }

  /** `urlparse(url).scheme`: the text before the first ":", lower-cased, when it is a
      letter followed by scheme characters; else empty. */
  function UrlScheme(url: string): (scheme: string)
    ensures forall i :: 0 <= i < |scheme| ==> !('A' <= scheme[i] <= 'Z')
  {
    var i := ColonIndex(url);
    if 0 < i < |url| && AsciiLetter(url[0]) && (forall j :: 0 <= j < i ==> SchemeChar(url[j])) then Lower(url[..i])
    else ""
  }

  /** `s.removeprefix(prefix)`. */
  function RemovePrefix(s: string, prefix: string): (r: string)
    ensures StartsWith(s, prefix) ==> s == prefix + r
    ensures !StartsWith(s, prefix) ==> r == s
  {
    if StartsWith(s, prefix) then s[|prefix|..] else s
  }

  // ---------------------------------------------------------------- activation

  /** A location as GIO is asked for it. */
  datatype GFile = ForUri(uri: string) | ForPath(path: string)

  /** What activating the entry does. */
  datatype Activation =
    | NoSuchTags               // toast "No such tags"
    | OpenTags(tags: seq<string>)  // hide the entry, `new_page(tags=...)`
    | OpenFolder(gfile: GFile) // hide the entry, `new_page(gfile)`
    | UnableToFind             // toast "Unable to find path"

  /** The location typed text with a "://" names (path_entry.py:174-177): the scheme
      prefix, then the rest of the text percent-quoted. */
  function UriOf(text: string): string {
    var prefix := UrlScheme(text) + "://";
    prefix + Quote(RemovePrefix(text, prefix))
  }

  /** `__activate` (path_entry.py:156-200). `expand` is `str(Path(t).expanduser())`,
      `isDir` is `query_file_type(...) == DIRECTORY` and `pageUri` is the URI of the
      visible page's folder, when it has one. */
  function Activate(text: string, registry: seq<string>, expand: string -> string,
                    isDir: GFile -> bool, pageUri: Option<string>): (a: Activation)
    ensures StartsWith(Strip(text), "//") ==>
      a == (if Chosen(registry, TagNames(Strip(text))) == [] then NoSuchTags
            else OpenTags(Chosen(registry, TagNames(Strip(text)))))
    ensures !StartsWith(Strip(text), "//") ==> !a.NoSuchTags? && !a.OpenTags?
    ensures a.OpenFolder? ==> isDir(a.gfile)
    ensures a.OpenTags? ==> a.tags != []
    ensures !StartsWith(Strip(text), "//") ==>
      var t := Strip(text);
      var direct := if Contains(t, "://") then ForUri(UriOf(t)) else ForPath(expand(t));
      (isDir(direct) ==> a == OpenFolder(direct))
      && (!isDir(direct) && a.OpenFolder? ==>
           !Contains(t, "://") && pageUri.Some? && a.gfile == ForUri(pageUri.value + "/" + Quote(t)))
  {
    var t := Strip(text);
    if StartsWith(t, "//") then
      var tags := Chosen(registry, TagNames(t));
      if tags == [] then NoSuchTags else OpenTags(tags)
    else
      var hasScheme := Contains(t, "://");
      var gfile := if hasScheme then ForUri(UriOf(t)) else ForPath(expand(t));
      if isDir(gfile) then OpenFolder(gfile)
      else if !hasScheme && pageUri.Some? then
        var relative := ForUri(pageUri.value + "/" + Quote(t));
        if isDir(relative) then OpenFolder(relative) else UnableToFind
      else UnableToFind
  }

  /** A typed path that is neither a folder itself nor a folder below the visible
      page gives the "Unable to find path" toast; the page's folder is tried only for
      text without a scheme. */
  lemma ActivateFallback(text: string, registry: seq<string>, expand: string -> string,
                         isDir: GFile -> bool, pageUri: Option<string>)
    requires !StartsWith(Strip(text), "//")
    ensures var a := Activate(text, registry, expand, isDir, pageUri);
      var t := Strip(text);
      a.UnableToFind? <==>
        (!isDir(if Contains(t, "://") then ForUri(UriOf(t)) else ForPath(expand(t)))
         && (Contains(t, "://") || pageUri.None? || !isDir(ForUri(pageUri.value + "/" + Quote(t)))))
  {
  }

  /** When the text starts with its scheme as `urlparse` reports it, that prefix is
      kept and everything after it is quoted, so the URI has no further ":". */
  lemma UriKeepsScheme(text: string)
    requires StartsWith(text, UrlScheme(text) + "://")
    ensures var prefix := UrlScheme(text) + "://";
      UriOf(text) == prefix + Quote(text[|prefix|..])
      && forall i :: |prefix| <= i < |UriOf(text)| ==> UriOf(text)[i] != ':'
  {
    var prefix := UrlScheme(text) + "://";
    QuoteOutput(text[|prefix|..]);
    assert UriOf(text)[|prefix|..] == Quote(text[|prefix|..]);
  }

  /** The scheme as typed is removed whatever its case (the corrected prefix removal). */
  function RemoveSchemePrefix(s: string, prefix: string): (r: string)
    ensures StartsWith(Lower(s), prefix) ==> r == s[|prefix|..]
    ensures !StartsWith(Lower(s), prefix) ==> r == s
  {
    if |prefix| <= |s| && Lower(s[..|prefix|]) == prefix then s[|prefix|..] else s
  }

  /** The location for a text with a "://", with the prefix removed whatever its case. */
  function UriOfCorrected(text: string): string {
    var prefix := UrlScheme(text) + "://";
    prefix + Quote(RemoveSchemePrefix(text, prefix))
  }

  /** An upper-case scheme is lower-cased by `urlparse`, so `removeprefix` misses it,
      and the scheme with its ":" ends up quoted behind the prefix. */
  lemma UpperCaseSchemeQuoted()
    ensures UrlScheme("S://") == "s"
    ensures UriOf("S://") == "s://S%3A//"
  {
    var t := "S://";
    UpperCaseScheme();
    var prefix := UrlScheme(t) + "://";
    assert prefix == "s://";
    assert RemovePrefix(t, prefix) == t by {
      assert t[0] != prefix[0];
    }
    QuoteOfUpperScheme();
    assert UriOf(t) == prefix + Quote(t);
  }

  lemma UpperCaseScheme()
    ensures UrlScheme("S://") == "s"
  {
    var t := "S://";
    assert t == "S" + "://" + "";
    ColonAfterScheme("S", "");
    assert t[..1] == "S";
    assert Lower("S") == [LowerChar('S')];
  }

  lemma QuoteOfUpperScheme()
    ensures Quote("S://") == "S%3A//"
  {
    QuoteSafeText("S");
    QuoteSafeText("//");
    assert "S://" == "S" + ([':'] + "//");
    QuoteConcat("S", [':'] + "//");
    QuoteConcat([':'], "//");
    QuoteColon();
  }

  lemma QuoteColon()
    ensures Quote([':']) == "%3A"
  {
    assert !QuoteSafe(':');
    assert Utf8(':') == [58];
    assert EscapeAll([58]) == Escape(58) + EscapeAll([]);
    assert HexDigit(3) == '3' && HexDigit(10) == 'A';
    assert [':'][1..] == [];
  }

  lemma {:induction false} QuoteConcat(a: string, b: string)
    ensures Quote(a + b) == Quote(a) + Quote(b)
    decreases |a|
  {
    if a == [] {
      assert a + b == b;
    } else {
      assert (a + b)[1..] == a[1..] + b;
      QuoteConcat(a[1..], b);
    }
  }

  /** With the corrected removal, a valid scheme in any case becomes a lower-case
      prefix, and only the text after "://" is quoted. */
  lemma CorrectedUriKeepsScheme(scheme: string, rest: string)
    requires |scheme| >= 1 && AsciiLetter(scheme[0])
    requires forall i :: 0 <= i < |scheme| ==> SchemeChar(scheme[i])
    ensures UriOfCorrected(scheme + "://" + rest) == Lower(scheme) + "://" + Quote(rest)
  {
    var t := scheme + "://" + rest;
    ColonAfterScheme(scheme, rest);
    assert t[..|scheme|] == scheme;
    var prefix := Lower(scheme) + "://";
    assert UrlScheme(t) == Lower(scheme);
    LowerConcat(scheme, "://");
    assert t[..|prefix|] == scheme + "://";
    assert Lower("://") == "://";
    assert t[|prefix|..] == rest;
  }

  lemma ColonAfterScheme(scheme: string, rest: string)
    requires forall i :: 0 <= i < |scheme| ==> SchemeChar(scheme[i])
    ensures ColonIndex(scheme + "://" + rest) == |scheme|
  {
    var t := scheme + "://" + rest;
    assert t[|scheme|] == ':';
    assert forall i :: 0 <= i < |scheme| ==> t[i] == scheme[i];
  }

  lemma {:induction false} LowerConcat(a: string, b: string)
    ensures Lower(a + b) == Lower(a) + Lower(b)
    decreases |a|
  {
    if a == [] {
      assert a + b == b;
    } else {
      assert (a + b)[1..] == a[1..] + b;
      LowerConcat(a[1..], b);
    }
  }

  /** `__activate` with the corrected scheme-prefix removal. */
  function ActivateCorrected(text: string, registry: seq<string>, expand: string -> string,
                             isDir: GFile -> bool, pageUri: Option<string>): (a: Activation)
    ensures StartsWith(Strip(text), "//") ==>
      a == (if Chosen(registry, TagNames(Strip(text))) == [] then NoSuchTags
            else OpenTags(Chosen(registry, TagNames(Strip(text)))))
    ensures !StartsWith(Strip(text), "//") ==> !a.NoSuchTags? && !a.OpenTags?
    ensures a.OpenFolder? ==> isDir(a.gfile)
    ensures a.OpenTags? ==> a.tags != []
    ensures !StartsWith(Strip(text), "//") ==>
      var t := Strip(text);
      var direct := if Contains(t, "://") then ForUri(UriOfCorrected(t)) else ForPath(expand(t));
      (isDir(direct) ==> a == OpenFolder(direct))
      && (!isDir(direct) && a.OpenFolder? ==>
           !Contains(t, "://") && pageUri.Some? && a.gfile == ForUri(pageUri.value + "/" + Quote(t)))
  {
    var t := Strip(text);
    if StartsWith(t, "//") then
      var tags := Chosen(registry, TagNames(t));
      if tags == [] then NoSuchTags else OpenTags(tags)
    else
      var hasScheme := Contains(t, "://");
      var gfile := if hasScheme then ForUri(UriOfCorrected(t)) else ForPath(expand(t));
      if isDir(gfile) then OpenFolder(gfile)
      else if !hasScheme && pageUri.Some? then
        var relative := ForUri(pageUri.value + "/" + Quote(t));
        if isDir(relative) then OpenFolder(relative) else UnableToFind
      else UnableToFind
  }

  /** As written, activating `S://` on a folder opens the location with the scheme
      quoted again, `s://S%3A//`. */
  lemma UpperCaseSchemeOpened(registry: seq<string>, expand: string -> string,
                              isDir: GFile -> bool, pageUri: Option<string>)
    requires isDir(ForUri("s://S%3A//"))
    ensures Activate("S://", registry, expand, isDir, pageUri) == OpenFolder(ForUri("s://S%3A//"))
  {
    var t := "S://";
    assert Strip(t) == t by {
      assert !IsSpace(t[0]) && !IsSpace(t[|t| - 1]);
    }
    assert !StartsWith(t, "//") by {
      assert t[..2] != "//" by { assert t[0] == 'S'; }
    }
    assert Contains(t, "://") by {
      assert t[1..] == "://";
      assert StartsWith(t[1..], "://");
    }
    UpperCaseSchemeQuoted();
  }

  /** With the corrected removal, activating `scheme://rest` (after stripping) on a
      folder opens the lower-case scheme, `://` and the quoted `rest`. */
  lemma CorrectedActivationKeepsScheme(text: string, scheme: string, rest: string,
                                       registry: seq<string>, expand: string -> string,
                                       isDir: GFile -> bool, pageUri: Option<string>)
    requires |scheme| >= 1 && AsciiLetter(scheme[0])
    requires forall i :: 0 <= i < |scheme| ==> SchemeChar(scheme[i])
    requires Strip(text) == scheme + "://" + rest
    requires isDir(ForUri(Lower(scheme) + "://" + Quote(rest)))
    ensures ActivateCorrected(text, registry, expand, isDir, pageUri)
            == OpenFolder(ForUri(Lower(scheme) + "://" + Quote(rest)))
  {
    SchemeText(scheme, rest);
  }

  /** Text that starts with a valid scheme and "://" is no tag text, has "://" and,
      with the corrected removal, keeps its scheme. */
  lemma SchemeText(scheme: string, rest: string)
    requires |scheme| >= 1 && AsciiLetter(scheme[0])
    requires forall i :: 0 <= i < |scheme| ==> SchemeChar(scheme[i])
    ensures var t := scheme + "://" + rest;
      !StartsWith(t, "//") && Contains(t, "://")
      && UriOfCorrected(t) == Lower(scheme) + "://" + Quote(rest)
  {
    var t := scheme + "://" + rest;
    assert !StartsWith(t, "//") by {
      assert t[..2][0] == t[0] == scheme[0] != '/';
    }
    ContainsInfix(scheme, "://", rest);
    CorrectedUriKeepsScheme(scheme, rest);
  }

  lemma {:induction false} ContainsInfix(pre: string, needle: string, post: string)
    ensures Contains(pre + needle + post, needle)
    decreases |pre|
  {
    var s := pre + needle + post;
    if pre == [] {
      assert s[..|needle|] == needle;
    } else {
      assert s[1..] == pre[1..] + needle + post;
      ContainsInfix(pre[1..], needle, post);
    }
  }

  // ---------------------------------------------------------------- completion

  /** The suffix `__complete` considers (path_entry.py:113-130): `None` for tag text or
      when the completer has nothing, absolutely or relative to the visible folder;
      unquoted when it came from a URI. `complete` is the completer's
      `get_completion_suffix`, "" for no completion. */
  function Suggestion(text: string, complete: string -> string, unquote: string -> string,
                      pageUri: Option<string>): (r: Option<string>)
    ensures r.None? <==>
      StartsWith(text, "//")
      || (complete(text) == "" && (pageUri.None? || complete(pageUri.value + "/" + Quote(text)) == ""))
    ensures !StartsWith(text, "//") && complete(text) != "" ==>
      r == Some(if Contains(text, "://") then unquote(complete(text)) else complete(text))
    ensures !StartsWith(text, "//") && complete(text) == "" && pageUri.Some? ==>
      var relative := complete(pageUri.value + "/" + Quote(text));
      relative != "" ==> r == Some(unquote(relative))
  {
    if StartsWith(text, "//") then None
    else
      var direct := complete(text);
      var relative := direct == "" && pageUri.Some?;
      var completion := if relative then complete(pageUri.value + "/" + Quote(text)) else direct;
      if completion == "" then None
      else if Contains(text, "://") || relative then Some(unquote(completion))
      else Some(completion)
  }

  /** The test that treats a change as a deletion and leaves the text alone
      (path_entry.py:134-141). */
  predicate LooksLikeDeletion(completion: string, text: string, prevText: string, prevCompletion: string) {
    || (|completion| == 2 && !EndsWith(prevCompletion, completion))
    || EndsWith(completion, prevCompletion)
    || (StartsWith(prevText, text) && EndsWith(prevCompletion, completion))
  }

  /** Every completion ends with the empty string, so on a fresh entry the first
      suggestion is only remembered, never inserted. */
  lemma FirstSuggestionNotInserted(completion: string, text: string)
    ensures LooksLikeDeletion(completion, text, "", "")
  {
    assert completion[|completion| - 0..] == "";
  }

  /** The same suggestion twice in a row is not inserted the second time. */
  lemma RepeatedSuggestionNotInserted(completion: string, text: string, prevText: string)
    ensures LooksLikeDeletion(completion, text, prevText, completion)
  {
  }

  class PathEntry {
    var text: string
    var prevText: string
    var prevCompletion: string
    /** Where the selected (suggested) part of the text starts, after an insertion. */
    var selectionStart: Option<nat>

    constructor ()
      ensures text == "" && prevText == "" && prevCompletion == "" && selectionStart.None?
    {
      text := "";
      prevText := "";
      prevCompletion := "";
      selectionStart := None;
    }

    /** `new_path` (path_entry.py:53-81). Setting a different text emits "changed", so
        `__complete` (connected at path_entry.py:44) runs on the new text at once;
        `complete`, `unquote` and `pageUri` are what that run sees. */
    method NewPath(tags: seq<string>, gfile: Option<Folder>,
                   complete: string -> string, unquote: string -> string, pageUri: Option<string>)
      modifies this
      ensures var r := NewPathText(tags, gfile);
        (r.None? || r.value == old(text)) ==>
          text == old(text) && prevText == old(prevText) && prevCompletion == old(prevCompletion)
          && selectionStart == old(selectionStart)
      ensures var r := NewPathText(tags, gfile);
        r.Some? && r.value != old(text) ==>
          var s := Suggestion(r.value, complete, unquote, pageUri);
          && (s.None? ==> text == r.value && prevText == old(prevText) && prevCompletion == old(prevCompletion)
                          && selectionStart == old(selectionStart))
          && (s.Some? ==> prevText == r.value && prevCompletion == s.value)
          && (s.Some? && LooksLikeDeletion(s.value, r.value, old(prevText), old(prevCompletion)) ==>
                text == r.value && selectionStart == old(selectionStart))
          && (s.Some? && !LooksLikeDeletion(s.value, r.value, old(prevText), old(prevCompletion)) ==>
                text == r.value + s.value && selectionStart == Some(|r.value|))
    {
      var r := NewPathText(tags, gfile);
      if r.Some? && r.value != text {
        text := r.value;
        Complete(complete, unquote, pageUri);
      }
    }

    /** `__complete` (path_entry.py:109-154): remember the suggestion and, unless the
        change looks like a deletion, append it to the text and select it. */
    method Complete(complete: string -> string, unquote: string -> string, pageUri: Option<string>)
      modifies this
      ensures var s := Suggestion(old(text), complete, unquote, pageUri);
        && (s.None? ==> text == old(text) && prevText == old(prevText) && prevCompletion == old(prevCompletion)
                        && selectionStart == old(selectionStart))
        && (s.Some? ==> prevText == old(text) && prevCompletion == s.value)
        && (s.Some? && LooksLikeDeletion(s.value, old(text), old(prevText), old(prevCompletion)) ==>
              text == old(text) && selectionStart == old(selectionStart))
        && (s.Some? && !LooksLikeDeletion(s.value, old(text), old(prevText), old(prevCompletion)) ==>
              text == old(text) + s.value && selectionStart == Some(|old(text)|))
    {
      var typed := text;
      var suggestion := Suggestion(typed, complete, unquote, pageUri);
      if suggestion.None? {
        return;
      }
      var completion := suggestion.value;
      if LooksLikeDeletion(completion, typed, prevText, prevCompletion) {
        prevText := typed;
        prevCompletion := completion;
        return;
      }
      prevText := typed;
      prevCompletion := completion;
      text := typed + completion;
      selectionStart := Some(|typed|);
    }
  }
}
