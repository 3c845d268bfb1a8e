/** The navigation history of one tab (hyperplane/navigation_bin.py): the stack of the
    navigation view, the pages added to the view, and the `next_pages` redo stack that
    back navigation fills and any diverging push empties. */
module NavigationBin {
  import opened Text

  /** What an items page shows: a folder by URI or a tag filter. `HypItemsPage`
      has a `gfile` or a `tags` list, never both. */
  datatype Location = FileAt(uri: string) | TagsOf(tags: seq<string>)

  /** The arguments of `new_page`; `tags == []` stands for `None` and `tag == ""` for
      `None` as well, since the source tests their truthiness. */
  datatype Request = Request(gfile: Option<string>, tag: string, tags: seq<string>)

  /** What `new_page` decides to do with the view. */
  datatype Action =
    | Stay                  // return without touching the view
    | PushNext              // push the page on top of `next_pages` again
    | PushNew(loc: Location) // add and push a fresh page

  function TagsOfPage(page: Location): seq<string> {
    if page.TagsOf? then page.tags else []
  }

  /** The decision chain of `new_page` (navigation_bin.py:76-118), in its own order. */
  function NewPageAction(visible: Location, next: Option<Location>, req: Request): (a: Action)
    ensures a == ActionByTarget(visible, next, Target(visible, req))
  {
    if req.gfile.Some? then
      var uri := req.gfile.value;
      if visible.FileAt? && visible.uri == uri then Stay
      else if next.Some? && next.value.FileAt? && next.value.uri == uri then PushNext
      else PushNew(FileAt(uri))
    else if req.tags != [] then
      if visible.TagsOf? && visible.tags == req.tags then Stay
      else if next.Some? && next.value.TagsOf? && next.value.tags == req.tags then PushNext
      else PushNew(TagsOf(req.tags))
    else if req.tag != "" then
      if TagsOfPage(visible) != [] && req.tag in TagsOfPage(visible) then Stay
      else
        var tags := TagsOfPage(visible) + [req.tag];
        if next.Some? && next.value.TagsOf? && next.value.tags == tags then PushNext
        else PushNew(TagsOf(tags))
    else Stay
  }

  /** The location a request asks for: a file, else the tag list, else the visible
      tags with `tag` added when it is missing; nothing without any of them. */
  function Target(visible: Location, req: Request): Option<Location> {
    if req.gfile.Some? then Some(FileAt(req.gfile.value))
    else if req.tags != [] then Some(TagsOf(req.tags))
    else if req.tag != "" then
      if req.tag in TagsOfPage(visible) then Some(visible)
      else Some(TagsOf(TagsOfPage(visible) + [req.tag]))
    else None
  }

  /** Navigation by structural equality of locations: staying on the visible location
      is a no-op, going to the location on top of the redo stack reuses that page,
      anything else creates a page. */
  function ActionByTarget(visible: Location, next: Option<Location>, target: Option<Location>): Action {
    match target
    case None => Stay
    case Some(t) =>
      if t == visible then Stay
      else if next == Some(t) then PushNext
      else PushNew(t)
  }

  /** A fresh page never shows the visible location again, and a page reused from the
      redo stack is exactly the one the request asks for. */
  lemma NewPageNeverDuplicates(visible: Location, next: Option<Location>, req: Request)
    ensures NewPageAction(visible, next, req).PushNew? ==>
      NewPageAction(visible, next, req).loc != visible
    ensures NewPageAction(visible, next, req).PushNext? ==>
      next.Some? && Target(visible, req) == next
  {
  }

  /** `tags` wins over `tag` (navigation_bin.py:89-90) and `gfile` wins over both. */
  lemma RequestPrecedence(visible: Location, next: Option<Location>, uri: string, tag: string, tags: seq<string>)
    ensures NewPageAction(visible, next, Request(Some(uri), tag, tags))
         == NewPageAction(visible, next, Request(Some(uri), "", []))
    ensures tags != [] ==>
      NewPageAction(visible, next, Request(None, tag, tags))
      == NewPageAction(visible, next, Request(None, "", tags))
  {
  }

  /** A single tag appends at the end of the visible tags. */
  lemma SingleTagAppends(visible: Location, next: Option<Location>, tag: string)
    requires tag != "" && tag !in TagsOfPage(visible)
    requires next.None?
    ensures NewPageAction(visible, next, Request(None, tag, [])) == PushNew(TagsOf(TagsOfPage(visible) + [tag]))
  {
  }

  type PageId = nat

  predicate Distinct(s: seq<PageId>) {
    forall i, j :: 0 <= i < j < |s| ==> s[i] != s[j]
  }

  function Reversed(s: seq<PageId>): (r: seq<PageId>)
    ensures |r| == |s|
    ensures forall i :: 0 <= i < |s| ==> r[i] == s[|s| - 1 - i]
  {
    if s == [] then [] else Reversed(s[1..]) + [s[0]]
  }

  lemma ReversedSnoc(s: seq<PageId>, x: PageId)
    ensures Reversed(s + [x]) == [x] + Reversed(s)
  {
    var l, r := Reversed(s + [x]), [x] + Reversed(s);
    assert |l| == |r|;
    forall i | 0 <= i < |l| ensures l[i] == r[i] {
      if i > 0 {
        assert l[i] == (s + [x])[|s| - i];
      }
    }
  }

  /** The request that navigates to a location. */
  function RequestFor(loc: Location): Request {
    match loc
    case FileAt(uri) => Request(Some(uri), "", [])
    case TagsOf(tags) => Request(None, "", tags)
  }

  /** The invariant of a tab's navigation state: the visible page and every page on
      either stack exist and are in the view, no page is on both stacks or twice on
      one, identities below `freshId` are the only ones used, tag pages have tags,
      and no step along the history stays on the same location. */
  ghost predicate Consistent(pages: map<PageId, Location>, stack: seq<PageId>, added: set<PageId>,
                             nextPages: seq<PageId>, freshId: PageId)
  {
    && |stack| >= 1
    && Distinct(stack) && Distinct(nextPages)
    && (forall p :: p in pages ==> p < freshId)
    && (forall i :: 0 <= i < |stack| ==> stack[i] in pages && stack[i] in added)
    && (forall i :: 0 <= i < |nextPages| ==> nextPages[i] in pages && nextPages[i] in added)
    && (forall i, j :: 0 <= i < |stack| && 0 <= j < |nextPages| ==> stack[i] != nextPages[j])
    && (forall p :: p in pages && pages[p].TagsOf? ==> pages[p].tags != [])
    && NoRepeatedStep(pages, stack + Reversed(nextPages))
  }

  /** Two neighbours in the history never show the same location. */
  ghost predicate NoRepeatedStep(pages: map<PageId, Location>, h: seq<PageId>) {
    forall i :: 0 <= i < |h| - 1 && h[i] in pages && h[i + 1] in pages ==> pages[h[i]] != pages[h[i + 1]]
  }

  /** Pushing the page on top of the redo stack moves it to the view's stack. */
  lemma PushNextConsistent(pages: map<PageId, Location>, stack: seq<PageId>, added: set<PageId>,
                           nextPages: seq<PageId>, freshId: PageId)
    requires Consistent(pages, stack, added, nextPages, freshId) && nextPages != []
    ensures Consistent(pages, stack + [nextPages[|nextPages| - 1]], added, nextPages[..|nextPages| - 1], freshId)
  {
    var p, rest := nextPages[|nextPages| - 1], nextPages[..|nextPages| - 1];
    var stack' := stack + [p];
    assert nextPages == rest + [p];
    ReversedSnoc(rest, p);
    assert stack' + Reversed(rest) == stack + Reversed(nextPages);
    assert p !in stack by {
      forall i | 0 <= i < |stack| ensures stack[i] != p {
        assert stack[i] != nextPages[|nextPages| - 1];
      }
    }
    assert Distinct(stack');
    forall i, j | 0 <= i < |stack'| && 0 <= j < |rest|
      ensures stack'[i] != rest[j]
    {
      assert rest[j] == nextPages[j];
      if i == |stack| {
        assert j < |nextPages| - 1;
      }
    }
  }

  /** Pushing any other page that is in the view and shows another location than the
      visible one empties the redo stack and drops its pages from the view. */
  lemma PushNewConsistent(pages: map<PageId, Location>, stack: seq<PageId>, added: set<PageId>,
                          nextPages: seq<PageId>, freshId: PageId, p: PageId)
    requires Consistent(pages, stack, added, nextPages, freshId)
    requires p in pages && p in added && p !in stack && p !in nextPages
    requires pages[p] != pages[stack[|stack| - 1]]
    ensures Consistent(pages, stack + [p], added - (set i | 0 <= i < |nextPages| :: nextPages[i]), [], freshId)
  {
    var history := stack + Reversed(nextPages);
    var stack', added' := stack + [p], added - (set i | 0 <= i < |nextPages| :: nextPages[i]);
    assert stack' + Reversed([]) == stack';
    forall i | 0 <= i < |stack| - 1
      ensures pages[stack[i]] != pages[stack[i + 1]]
    {
      assert stack[i] == history[i] && stack[i + 1] == history[i + 1];
    }
    assert NoRepeatedStep(pages, stack');
    forall i | 0 <= i < |stack'|
      ensures stack'[i] in added'
    {
      assert stack'[i] !in nextPages by {
        if i < |stack| {
          assert stack'[i] == stack[i];
        }
      }
    }
    assert Distinct(stack');
  }

  /** A page with a fresh identity, added to the view, keeps the state consistent. */
  lemma AddPageConsistent(pages: map<PageId, Location>, stack: seq<PageId>, added: set<PageId>,
                          nextPages: seq<PageId>, freshId: PageId, loc: Location)
    requires Consistent(pages, stack, added, nextPages, freshId)
    requires loc.TagsOf? ==> loc.tags != []
    ensures freshId !in pages
    ensures Consistent(pages[freshId := loc], stack, added + {freshId}, nextPages, freshId + 1)
  {
    var pages' := pages[freshId := loc];
    var h := stack + Reversed(nextPages);
    forall i | 0 <= i < |h|
      ensures h[i] in pages
    {
      if i >= |stack| {
        assert h[i] == nextPages[|nextPages| - 1 - (i - |stack|)];
      }
    }
    assert forall i :: 0 <= i < |h| ==> pages'[h[i]] == pages[h[i]];
  }

  class NavigationBin {
    /** Every `HypItemsPage` created so far and what it shows. */
    var pages: map<PageId, Location>
    /** The view's navigation stack; the last one is the visible page. */
    var stack: seq<PageId>
    /** The pages added to the view with `add` (they stay there after being popped). */
    var added: set<PageId>
    /** `next_pages`: popped pages, the most recently popped last. */
    var nextPages: seq<PageId>
    /** The identity the next new page receives. */
    var freshId: PageId

    ghost predicate Valid()
      reads this
    {
      Consistent(pages, stack, added, nextPages, freshId)
    }

    /** The line of history back and forward navigation moves along: the stack, then
        the redo stack from the page popped last to the page popped first. */
    ghost function History(): seq<PageId>
      reads this
    {
      stack + Reversed(nextPages)
    }

    function Visible(): PageId
      reads this
      requires |stack| >= 1
    {
      stack[|stack| - 1]
    }

    /** The view's `get-next-page` handler: the top of `next_pages`, if any. */
    function NextPage(): (r: Option<PageId>)
      reads this
      ensures r.None? <==> nextPages == []
      ensures r.Some? ==> r.value == nextPages[|nextPages| - 1]
    {
      if nextPages == [] then None else Some(nextPages[|nextPages| - 1])
    }

    /** The constructor with an initial folder or a non-empty initial tag list. */
    constructor (initial: Location)
      requires initial.TagsOf? ==> initial.tags != []
      ensures Valid()
      ensures pages == map[0 := initial] && stack == [0] && added == {0} && nextPages == []
    {
      pages := map[0 := initial];
      stack := [0];
      added := {0};
      nextPages := [];
      freshId := 1;
    }

    /** The `pushed` handler (navigation_bin.py:123-138). */
    method Pushed()
      requires |stack| >= 1
      modifies this
      ensures pages == old(pages) && stack == old(stack) && freshId == old(freshId)
      ensures old(nextPages) == [] ==> nextPages == [] && added == old(added)
      ensures old(nextPages) != [] && Visible() == old(nextPages)[|old(nextPages)| - 1] ==>
        nextPages == old(nextPages)[..|old(nextPages)| - 1] && added == old(added)
      ensures old(nextPages) != [] && Visible() != old(nextPages)[|old(nextPages)| - 1] ==>
        nextPages == [] && added == old(added) - set i | 0 <= i < |old(nextPages)| :: old(nextPages)[i]
    {
      if nextPages == [] {
        return;
      }
      if Visible() == nextPages[|nextPages| - 1] {
        nextPages := nextPages[..|nextPages| - 1];
      } else {
        var inView := added;
        for k := 0 to |nextPages|
          invariant inView == added - set i | 0 <= i < k :: nextPages[i]
        {
          inView := inView - {nextPages[k]};
        }
        added := inView;
        nextPages := [];
      }
    }

    /** The page on top of the redo stack was directly above the visible one, so it
        shows a different location. */
    lemma NextTopDiffers()
      requires Valid() && nextPages != []
      ensures pages[nextPages[|nextPages| - 1]] != pages[Visible()]
    {
      var h := History();
      assert h[|stack| - 1] == Visible();
      assert h[|stack|] == nextPages[|nextPages| - 1];
    }

    /** `view.push(page)`: the page goes on top of the stack and the view emits
        `pushed`. */
    method Push(p: PageId)
      requires Valid() && p in pages && p in added && p !in stack
      requires p !in nextPages || (nextPages != [] && p == nextPages[|nextPages| - 1])
      requires pages[p] != pages[Visible()]
      modifies this
      ensures Valid()
      ensures pages == old(pages) && freshId == old(freshId)
      ensures stack == old(stack) + [p]
      ensures old(nextPages) != [] && p == old(nextPages)[|old(nextPages)| - 1] ==>
        nextPages == old(nextPages)[..|old(nextPages)| - 1] && added == old(added)
      ensures (old(nextPages) == [] || p != old(nextPages)[|old(nextPages)| - 1]) ==>
        nextPages == [] && added == old(added) - set i | 0 <= i < |old(nextPages)| :: old(nextPages)[i]
    {
      if nextPages != [] && p == nextPages[|nextPages| - 1] {
        PushNextConsistent(pages, stack, added, nextPages, freshId);
      } else {
        PushNewConsistent(pages, stack, added, nextPages, freshId, p);
      }
      stack := stack + [p];
      Pushed();
    }

    /** The `popped` handler (navigation_bin.py:140-145). */
    method Popped(p: PageId)
      modifies this
      ensures nextPages == old(nextPages) + [p]
      ensures pages == old(pages) && stack == old(stack) && added == old(added) && freshId == old(freshId)
    {
      nextPages := nextPages + [p];
    }

    /** Going back: the view pops its visible page, which it never does for the root
        page, and emits `popped` with it. */
    method Back()
      requires Valid()
      modifies this
      ensures Valid()
      ensures pages == old(pages) && added == old(added) && freshId == old(freshId)
      ensures |old(stack)| == 1 ==> stack == old(stack) && nextPages == old(nextPages)
      ensures |old(stack)| > 1 ==>
        stack == old(stack)[..|old(stack)| - 1] &&
        nextPages == old(nextPages) + [old(stack)[|old(stack)| - 1]]
      ensures History() == old(History())
    {
      if |stack| > 1 {
        var p := stack[|stack| - 1];
        ghost var history := History();
        stack := stack[..|stack| - 1];
        Popped(p);
        ReversedSnoc(old(nextPages), p);
        assert old(stack) == stack + [p];
        assert History() == history;
      }
    }

    /** Going forward: the view asks `get-next-page` and pushes the page it gets. */
    method Forward()
      requires Valid()
      modifies this
      ensures Valid()
      ensures pages == old(pages) && added == old(added) && freshId == old(freshId)
      ensures old(nextPages) == [] ==> stack == old(stack) && nextPages == []
      ensures old(nextPages) != [] ==>
        stack == old(stack) + [old(nextPages)[|old(nextPages)| - 1]] &&
        nextPages == old(nextPages)[..|old(nextPages)| - 1]
      ensures History() == old(History())
    {
      var next := NextPage();
      if next.Some? {
        NextTopDiffers();
        Push(next.value);
      }
    }

    /** `new_page(gfile, tag, tags)` (navigation_bin.py:66-121). */
    method NewPage(req: Request)
      requires Valid()
      modifies this
      ensures Valid()
      ensures
        var next := if old(nextPages) == [] then None else Some(old(pages)[old(nextPages)[|old(nextPages)| - 1]]);
        match NewPageAction(old(pages)[old(stack)[|old(stack)| - 1]], next, req)
        case Stay =>
          pages == old(pages) && stack == old(stack) && added == old(added) && nextPages == old(nextPages)
        case PushNext =>
          pages == old(pages) && added == old(added) &&
          stack == old(stack) + [old(nextPages)[|old(nextPages)| - 1]] &&
          nextPages == old(nextPages)[..|old(nextPages)| - 1]
        case PushNew(loc) =>
          old(freshId) !in old(pages) &&
          pages == old(pages)[old(freshId) := loc] &&
          stack == old(stack) + [old(freshId)] && nextPages == [] &&
          added == (old(added) - set i | 0 <= i < |old(nextPages)| :: old(nextPages)[i]) + {old(freshId)}
      ensures NewPageAction(old(pages)[old(stack)[|old(stack)| - 1]],
                            if old(nextPages) == [] then None else Some(old(pages)[old(nextPages)[|old(nextPages)| - 1]]),
                            req).PushNew?
              <==> History() != old(History())
    {
      var next := if nextPages == [] then None else Some(pages[nextPages[|nextPages| - 1]]);
      var action := NewPageAction(pages[Visible()], next, req);
      match action
      case Stay =>
      case PushNext =>
        Push(nextPages[|nextPages| - 1]);
      case PushNew(loc) =>
        var p := AddPage(loc);
        ghost var history := History();
        Push(p);
        if old(nextPages) != [] {
          assert history[|old(stack)|] == old(nextPages)[|old(nextPages)| - 1] != p;
          assert History()[|old(stack)|] == p;
        } else {
          assert |History()| == |history| + 1;
        }
    }

    /** A new `HypItemsPage` for the location, added to the view: it gets the next
        identity. */
    method AddPage(loc: Location) returns (p: PageId)
      requires Valid() && (loc.TagsOf? ==> loc.tags != [])
      modifies this
      ensures Valid()
      ensures p == old(freshId) && p !in old(pages) && pages == old(pages)[p := loc]
      ensures freshId == old(freshId) + 1 && added == old(added) + {p}
      ensures stack == old(stack) && nextPages == old(nextPages)
    {
      AddPageConsistent(pages, stack, added, nextPages, freshId, loc);
      p := freshId;
      pages, freshId, added := pages[p := loc], freshId + 1, added + {p};
    }

    /** Going back and then asking for the location that was visible brings back the
        very page that was popped, with the redo stack as it was. */
    method ReturnAfterBack()
      requires Valid() && |stack| > 1
      modifies this
      ensures Valid()
      ensures pages == old(pages) && stack == old(stack) && nextPages == old(nextPages) && added == old(added)
    {
      var loc := pages[Visible()];
      ghost var below := stack[|stack| - 2];
      assert History()[|stack| - 2] == below && History()[|stack| - 1] == Visible();
      Back();
      assert Visible() == below;
      NewPage(RequestFor(loc));
    }
  }
}
