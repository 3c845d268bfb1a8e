/** The tag registry of hyperplane/utils/tags.py: one ordered list of tag names that
    `add_tags` and `remove_tags` change in place and `update_tags` writes, newline
    joined, to the `.hyperplane` file in the home directory before it emits
    `tags-changed`. */
module Tags {
  import opened Text

  /** The index of the first occurrence of `x` in `s`: what `list.remove` looks for. */
  function FirstIndex(s: seq<string>, x: string): (i: nat)
    requires x in s
    ensures i < |s| && s[i] == x
    ensures forall j :: 0 <= j < i ==> s[j] != x
  {
    if s[0] == x then 0 else 1 + FirstIndex(s[1..], x)
  }

  /** `list.remove(x)` for an `x` that may be absent: the first occurrence goes, the
      rest keep their order; an absent `x` leaves the list as it is. */
  function RemoveFirst(s: seq<string>, x: string): (r: seq<string>)
    ensures x in s ==> r == s[..FirstIndex(s, x)] + s[FirstIndex(s, x) + 1..]
    ensures x !in s ==> r == s
    ensures multiset(r) == multiset(s) - multiset{x}
  {
    if x !in s then s
    else
      var i := FirstIndex(s, x);
      assert s == s[..i] + [s[i]] + s[i + 1..];
      s[..i] + s[i + 1..]
  }

  /** The list after `remove_tags(*removed)`: each argument in turn, first occurrence. */
  function RemoveEach(s: seq<string>, removed: seq<string>): (r: seq<string>)
    decreases |removed|
  {
    if removed == [] then s else RemoveEach(RemoveFirst(s, removed[0]), removed[1..])
  }

  /** Removing tags never adds one: every remaining occurrence comes from the old list,
      and a tag the list held once and that is named among the arguments is gone. */
  lemma {:induction false} RemoveEachShrinks(s: seq<string>, removed: seq<string>)
    ensures multiset(RemoveEach(s, removed)) <= multiset(s)
    ensures forall x :: x in removed && multiset(s)[x] <= 1 ==> x !in RemoveEach(s, removed)
    decreases |removed|
  {
    if removed != [] {
      var s' := RemoveFirst(s, removed[0]);
      RemoveEachShrinks(s', removed[1..]);
      forall x | x in removed && multiset(s)[x] <= 1
        ensures x !in RemoveEach(s, removed)
      {
        if x == removed[0] {
          assert multiset(s')[x] == 0;
          RemoveEachKeepsAbsent(s', removed[1..], x);
        } else {
          assert x in removed[1..];
          assert multiset(s')[x] == multiset(s)[x];
        }
      }
    }
  }

  /** A tag that is absent stays absent. */
  lemma {:induction false} RemoveEachKeepsAbsent(s: seq<string>, removed: seq<string>, x: string)
    requires x !in s
    ensures x !in RemoveEach(s, removed)
    decreases |removed|
  {
    if removed != [] {
      var s' := RemoveFirst(s, removed[0]);
      assert multiset(s')[x] == 0;
      RemoveEachKeepsAbsent(s', removed[1..], x);
    }
  }

  /** The text `update_tags` writes. */
  function FileText(tags: seq<string>): string {
    Join(tags, "\n")
  }

  /** Reading the written file back with `split("\n")` gives the registry again when it
      is non-empty and no tag holds a newline. */
  lemma FileTextRoundTrip(tags: seq<string>)
    requires |tags| >= 1 && NoPartHas(tags, '\n')
    ensures SplitOn(FileText(tags), "\n") == tags
  {
    SplitJoin(tags, "\n");
  }

  /** An empty registry is written as the empty file, which splits into one empty name,
      not into the empty list. */
  lemma FileTextEmpty()
    ensures SplitOn(FileText([]), "\n") == [""]
  {
  }

  class Registry {
    /** `shared.tags`. */
    var tags: seq<string>
    /** The contents of `~/.hyperplane` as last written. */
    var file: string
    /** How many times `tags-changed` was emitted. */
    var emitted: nat

    constructor (loaded: seq<string>, onDisk: string)
      ensures tags == loaded && file == onDisk && emitted == 0
    {
      tags := loaded;
      file := onDisk;
      emitted := 0;
    }

    /** `update_tags`: rewrite the whole file from the list, then notify. */
    method UpdateTags()
      modifies this
      ensures tags == old(tags)
      ensures file == FileText(tags)
      ensures emitted == old(emitted) + 1
    {
      file := FileText(tags);
      emitted := emitted + 1;
    }

    /** `add_tags`: append every argument in order (no de-duplication), then write. */
    method AddTags(added: seq<string>)
      modifies this
      ensures tags == old(tags) + added
      ensures file == FileText(tags)
      ensures emitted == old(emitted) + 1
    {
      for k := 0 to |added|
        invariant tags == old(tags) + added[..k]
        invariant emitted == old(emitted)
      {
        tags := tags + [added[k]];
        assert added[..k + 1] == added[..k] + [added[k]];
      }
      assert added[..|added|] == added;
      UpdateTags();
    }

    /** `remove_tags`: for each argument that is present remove its first occurrence,
        ignore the others, then write even when nothing changed. */
    method RemoveTags(removed: seq<string>)
      modifies this
      ensures tags == RemoveEach(old(tags), removed)
      ensures file == FileText(tags)
      ensures emitted == old(emitted) + 1
    {
      for k := 0 to |removed|
        invariant RemoveEach(tags, removed[k..]) == RemoveEach(old(tags), removed)
        invariant emitted == old(emitted)
      {
        assert removed[k..][1..] == removed[k + 1..];
        if removed[k] in tags {
          tags := RemoveFirst(tags, removed[k]);
        }
      }
      UpdateTags();
    }
  }
}
