/** The comparator of the items pages (hyperplane/item_sorter.py): a chain of rules
    that settles the order of two files, with locale collation and date comparison
    taken as integer-valued comparisons given by the caller. An ordering is -1
    (first item before the second), 0 or 1. */
module ItemSorter {
  import opened Text

  /** What the comparator reads from a `Gio.FileInfo`. `contentType` is "" when there
      is none; `recentModified` is the modification date the recent manager reports
      for the target URI, `None` when the lookup raises; dates are instants. */
  datatype FileInfo = FileInfo(
    uri: string,
    scheme: string,
    name: string,
    contentType: string,
    deletionDate: Option<int>,
    recentModified: Option<int>,
    modified: Option<int>,
    created: Option<int>,
    size: int)

  /** `folders-before-files`, `shared.sort_by` and `shared.sort_reversed`. */
  datatype Settings = Settings(foldersFirst: bool, sortBy: string, reversed: bool)

  /** A collation function such as `strcoll`: negative, zero or positive. */
  type Collation = (string, string) -> int

  function Sign(x: int): (s: int)
    ensures s == -1 || s == 0 || s == 1
    ensures (s < 0 <==> x < 0) && (s > 0 <==> x > 0)
  {
    if x > 0 then 1 else if x < 0 then -1 else 0
  }

  /** `GLib.DateTime.compare`. */
  function DateCompare(x: int, y: int): int {
    Sign(x - y)
  }

  /** `__ordering_from_cmpfunc` (item_sorter.py:160-165): the sign of the comparison,
      flipped when the order is reversed. */
  function FromCmp(x: int, reversed: bool): (o: int)
    ensures o == -1 || o == 0 || o == 1
    ensures o == 0 <==> x == 0
    ensures !reversed ==> (o < 0 <==> x < 0)
    ensures reversed ==> (o < 0 <==> x > 0)
  {
    (if x > 0 then 1 else if x < 0 then -1 else 0) * (if reversed then -1 else 1)
  }

  predicate IsDir(f: FileInfo) {
    f.contentType == "inode/directory"
  }

  /** `__sort_folders_before_files` (item_sorter.py:167-179), 0 standing for `None`. */
  function FoldersFirst(a: FileInfo, b: FileInfo): (o: int)
    ensures o == -1 <==> IsDir(a) && !IsDir(b)
    ensures o == 1 <==> !IsDir(a) && IsDir(b)
    ensures o == 0 <==> IsDir(a) == IsDir(b)
  {
    if IsDir(a) then (if !IsDir(b) then -1 else 0)
    else if IsDir(b) then 1
    else 0
  }

  /** A trashed item at the top level of the trash. */
  predicate TopTrash(f: FileInfo) {
    f.scheme == "trash" && CountChar(f.uri, '/') < 4
  }

  /** `name.startswith(".")`. */
  predicate DotFile(f: FileInfo) {
    |f.name| > 0 && f.name[0] == '.'
  }

  /** `do_compare` (item_sorter.py:41-158). The trash and recent rules look at the
      first item only. */
  function Compare(i1: Option<FileInfo>, i2: Option<FileInfo>, s: Settings, coll: Collation): (o: int)
    ensures o == -1 || o == 0 || o == 1
    ensures i1.None? || i2.None? ==> o == 0
  {
    if i1.None? || i2.None? then 0
    else
      var a, b := i1.value, i2.value;
      if TopTrash(a) then
        if a.deletionDate.None? || b.deletionDate.None? then 0
        else FromCmp(DateCompare(b.deletionDate.value, a.deletionDate.value), s.reversed)
      else if a.scheme == "recent" && a.recentModified.Some? && b.recentModified.Some? then
        FromCmp(DateCompare(b.recentModified.value, a.recentModified.value), s.reversed)
      else GeneralCompare(a, b, s, coll)
  }

  /** Lines 104-158 of `do_compare`: folders, dot-files, then the sort key with a
      fall back to collation of the names. */
  function GeneralCompare(a: FileInfo, b: FileInfo, s: Settings, coll: Collation): (o: int)
    ensures o == -1 || o == 0 || o == 1
  {
    if s.foldersFirst && FoldersFirst(a, b) != 0 then FoldersFirst(a, b)
    else if DotFile(a) && !DotFile(b) then 1
    else if !DotFile(a) && DotFile(b) then -1
    else if s.sortBy == "modified" && a.modified.Some? && b.modified.Some? then
      FromCmp(DateCompare(b.modified.value, a.modified.value), s.reversed)
    else if s.sortBy == "created" && a.created.Some? && b.created.Some? then
      FromCmp(DateCompare(b.created.value, a.created.value), s.reversed)
    else if s.sortBy == "size" && FoldersFirst(a, b) != 0 then FoldersFirst(a, b)
    else if s.sortBy == "size" && a.size != 0 && b.size != 0 then
      (if a.size == b.size then 0 else FromCmp(if a.size < b.size then 1 else -1, s.reversed))
    else if s.sortBy == "type" && a.contentType != "" && b.contentType != "" then
      FromCmp(coll(b.contentType, a.contentType), s.reversed)
    else FromCmp(coll(a.name, b.name), s.reversed)
  }

  // ---------------------------------------------------------------- the rules

  /** Top-level trash items go by deletion date, newest first, and are equal when
      either date is missing. */
  lemma TrashByDeletionDate(a: FileInfo, b: FileInfo, s: Settings, coll: Collation)
    requires TopTrash(a)
    ensures var o := Compare(Some(a), Some(b), s, coll);
      && (a.deletionDate.None? || b.deletionDate.None? ==> o == 0)
      && (a.deletionDate.Some? && b.deletionDate.Some? && !s.reversed ==>
            (o < 0 <==> a.deletionDate.value > b.deletionDate.value)
            && (o == 0 <==> a.deletionDate.value == b.deletionDate.value))
  {
  }

  /** Two items outside the trash and recent rules. */
  predicate Ordinary(f: FileInfo) {
    !TopTrash(f) && f.scheme != "recent"
  }

  /** With folders-before-files on, a folder precedes a file and a file follows a
      folder, whatever the sort key and direction. */
  lemma FoldersBeforeFiles(a: FileInfo, b: FileInfo, s: Settings, coll: Collation)
    requires Ordinary(a) && s.foldersFirst
    ensures IsDir(a) && !IsDir(b) ==> Compare(Some(a), Some(b), s, coll) == -1
    ensures !IsDir(a) && IsDir(b) ==> Compare(Some(a), Some(b), s, coll) == 1
  {
  }

  /** A dot-file follows any other name once folders are settled, whatever the sort
      key and direction. */
  lemma DotFilesLast(a: FileInfo, b: FileInfo, s: Settings, coll: Collation)
    requires Ordinary(a) && (!s.foldersFirst || IsDir(a) == IsDir(b))
    ensures DotFile(a) && !DotFile(b) ==> Compare(Some(a), Some(b), s, coll) == 1
    ensures !DotFile(a) && DotFile(b) ==> Compare(Some(a), Some(b), s, coll) == -1
  {
  }

  /** Sorting by size: folders first even with folders-before-files off, equal
      non-zero sizes are equal, a larger file comes first, and a zero size falls back
      to the names. */
  lemma SizeOrder(a: FileInfo, b: FileInfo, s: Settings, coll: Collation)
    requires Ordinary(a) && s.sortBy == "size" && !s.reversed
    requires DotFile(a) == DotFile(b)
    ensures IsDir(a) && !IsDir(b) ==> Compare(Some(a), Some(b), s, coll) == -1
    ensures IsDir(a) == IsDir(b) && a.size != 0 && b.size != 0 ==>
      (Compare(Some(a), Some(b), s, coll) == 0 <==> a.size == b.size)
      && (Compare(Some(a), Some(b), s, coll) == -1 <==> a.size > b.size)
    ensures IsDir(a) == IsDir(b) && (a.size == 0 || b.size == 0) ==>
      Compare(Some(a), Some(b), s, coll) == Sign(coll(a.name, b.name))
  {
  }

  /** Reversing the order flips the key comparison and leaves the folder and dot-file
      rules alone. */
  lemma ReversalFlipsKey(a: FileInfo, b: FileInfo, s: Settings, coll: Collation)
    requires Ordinary(a)
    ensures var fwd := Settings(s.foldersFirst, s.sortBy, false);
      var bwd := Settings(s.foldersFirst, s.sortBy, true);
      var o, r := Compare(Some(a), Some(b), fwd, coll), Compare(Some(a), Some(b), bwd, coll);
      if (s.foldersFirst || s.sortBy == "size") && IsDir(a) != IsDir(b) then o == r
      else if DotFile(a) != DotFile(b) then o == r
      else r == -o
  {
  }

  // ---------------------------------------------------------------- order laws

  /** The collation laws the order relies on: antisymmetry in sign, and transitivity. */
  ghost predicate CollationLaws(coll: Collation) {
    && (forall x, y :: Sign(coll(x, y)) == -Sign(coll(y, x)))
    && (forall x, y, z :: coll(x, y) <= 0 && coll(y, z) <= 0 ==> coll(x, z) <= 0)
  }

  /** The rules that look only at the first item agree for both items. */
  predicate SameKind(a: FileInfo, b: FileInfo) {
    TopTrash(a) == TopTrash(b) && (a.scheme == "recent") == (b.scheme == "recent")
  }

  /** Swapping two items of the same kind negates the ordering. */
  lemma Antisymmetric(a: FileInfo, b: FileInfo, s: Settings, coll: Collation)
    requires CollationLaws(coll) && SameKind(a, b)
    ensures Compare(Some(a), Some(b), s, coll) == -Compare(Some(b), Some(a), s, coll)
  {
    if !TopTrash(a) && a.scheme != "recent" {
      GeneralAntisymmetric(a, b, s, coll);
    }
  }

  lemma GeneralAntisymmetric(a: FileInfo, b: FileInfo, s: Settings, coll: Collation)
    requires CollationLaws(coll)
    ensures GeneralCompare(a, b, s, coll) == -GeneralCompare(b, a, s, coll)
  {
    if s.foldersFirst && FoldersFirst(a, b) != 0 {
    } else if DotFile(a) != DotFile(b) {
    } else if s.sortBy == "type" && a.contentType != "" && b.contentType != "" {
      assert Sign(coll(a.contentType, b.contentType)) == -Sign(coll(b.contentType, a.contentType));
    } else {
      assert Sign(coll(a.name, b.name)) == -Sign(coll(b.name, a.name));
    }
  }

  /** Every item is equal to itself. */
  lemma Reflexive(a: FileInfo, s: Settings, coll: Collation)
    requires CollationLaws(coll)
    ensures Compare(Some(a), Some(a), s, coll) == 0
  {
    Antisymmetric(a, a, s, coll);
  }

  /** A collation by length, which obeys the collation laws. */
  function ByLength(x: string, y: string): int {
    |x| - |y|
  }

  lemma ByLengthLaws()
    ensures CollationLaws(ByLength)
  {
  }

  function Plain(name: string, modified: Option<int>): FileInfo {
    FileInfo("file:///" + name, "file", name, "text/plain", None, None, modified, None, 1)
  }

  /** Sorting by modification date is not transitive: an undated file sits between two
      dated ones by name while the dated ones are ordered by date the other way. */
  lemma ModifiedNotTransitive()
    ensures var s := Settings(false, "modified", false);
      var x, y, z := Plain("a", Some(1)), Plain("bb", None), Plain("ccc", Some(2));
      && CollationLaws(ByLength)
      && Compare(Some(x), Some(y), s, ByLength) == -1
      && Compare(Some(y), Some(z), s, ByLength) == -1
      && Compare(Some(x), Some(z), s, ByLength) == 1
  {
    ByLengthLaws();
    var x, y, z := Plain("a", Some(1)), Plain("bb", None), Plain("ccc", Some(2));
    assert !DotFile(x) && !DotFile(y) && !DotFile(z);
  }

  // ---------------------------------------------------------------- the corrected order

  type Comparator = (FileInfo, FileInfo) -> int

  /** A comparator whose sign is antisymmetric and whose "not after" is transitive. */
  ghost predicate TotalPreorder(c: Comparator) {
    && (forall a, b :: c(a, b) == -c(b, a))
    && (forall a, b, d :: c(a, b) <= 0 && c(b, d) <= 0 ==> c(a, d) <= 0)
  }

  /** The first comparator, and the second where the first sees no difference. */
  function Lex(c1: Comparator, c2: Comparator): Comparator {
    (a: FileInfo, b: FileInfo) => if c1(a, b) != 0 then c1(a, b) else c2(a, b)
  }

  lemma LexPreorder(c1: Comparator, c2: Comparator)
    requires TotalPreorder(c1) && TotalPreorder(c2)
    ensures TotalPreorder(Lex(c1, c2))
  {
    var l := Lex(c1, c2);
    forall a, b, d | l(a, b) <= 0 && l(b, d) <= 0
      ensures l(a, d) <= 0
    {
      assert c1(a, b) <= 0 && c1(b, d) <= 0;
      assert c1(a, d) <= 0;
      if c1(a, d) == 0 {
        assert c1(d, a) == 0;
        assert c1(b, a) <= 0 by {
          assert c1(b, d) <= 0 && c1(d, a) <= 0;
        }
        assert c1(d, b) <= 0 by {
          assert c1(d, a) <= 0 && c1(a, b) <= 0;
        }
        assert c1(a, b) == 0 && c1(b, d) == 0;
        assert c2(a, b) <= 0 && c2(b, d) <= 0;
      }
    }
  }

  /** Order by an integer rank, smaller first. */
  function ByRank(rank: FileInfo -> int): Comparator {
    (a: FileInfo, b: FileInfo) => Sign(rank(a) - rank(b))
  }

  lemma ByRankPreorder(rank: FileInfo -> int)
    ensures TotalPreorder(ByRank(rank))
  {
    var c := ByRank(rank);
    forall a, b, d | c(a, b) <= 0 && c(b, d) <= 0
      ensures c(a, d) <= 0
    {
      assert rank(a) <= rank(b) <= rank(d);
    }
    forall a, b
      ensures c(a, b) == -c(b, a)
    {
      assert rank(b) - rank(a) == -(rank(a) - rank(b));
    }
  }

  /** Names by collation, in the chosen direction. */
  function ByName(coll: Collation, reversed: bool): Comparator {
    (a: FileInfo, b: FileInfo) => FromCmp(coll(a.name, b.name), reversed)
  }

  lemma ByNamePreorder(coll: Collation, reversed: bool)
    requires CollationLaws(coll)
    ensures TotalPreorder(ByName(coll, reversed))
  {
    var c := ByName(coll, reversed);
    forall a, b, d | c(a, b) <= 0 && c(b, d) <= 0
      ensures c(a, d) <= 0
    {
      assert Sign(coll(a.name, b.name)) == -Sign(coll(b.name, a.name));
      assert Sign(coll(b.name, d.name)) == -Sign(coll(d.name, b.name));
      assert Sign(coll(a.name, d.name)) == -Sign(coll(d.name, a.name));
      if reversed {
        assert coll(d.name, b.name) <= 0 && coll(b.name, a.name) <= 0;
      } else {
        assert coll(a.name, b.name) <= 0 && coll(b.name, d.name) <= 0;
      }
    }
    forall a, b
      ensures c(a, b) == -c(b, a)
    {
      assert Sign(coll(a.name, b.name)) == -Sign(coll(b.name, a.name));
    }
  }

  /** Content types by collation, backwards as the source compares them. */
  function ByType(coll: Collation, reversed: bool): Comparator {
    (a: FileInfo, b: FileInfo) => FromCmp(coll(b.contentType, a.contentType), reversed)
  }

  lemma ByTypePreorder(coll: Collation, reversed: bool)
    requires CollationLaws(coll)
    ensures TotalPreorder(ByType(coll, reversed))
  {
    var c := ByType(coll, reversed);
    forall a, b, d | c(a, b) <= 0 && c(b, d) <= 0
      ensures c(a, d) <= 0
    {
      assert Sign(coll(a.contentType, b.contentType)) == -Sign(coll(b.contentType, a.contentType));
      assert Sign(coll(b.contentType, d.contentType)) == -Sign(coll(d.contentType, b.contentType));
      assert Sign(coll(a.contentType, d.contentType)) == -Sign(coll(d.contentType, a.contentType));
      if reversed {
        assert coll(a.contentType, b.contentType) <= 0 && coll(b.contentType, d.contentType) <= 0;
      } else {
        assert coll(d.contentType, b.contentType) <= 0 && coll(b.contentType, a.contentType) <= 0;
      }
    }
    forall a, b
      ensures c(a, b) == -c(b, a)
    {
      assert Sign(coll(a.contentType, b.contentType)) == -Sign(coll(b.contentType, a.contentType));
    }
  }

  /** Items with the key by the key, then the items without it by the fall back order. */
  function MissingLast(has: FileInfo -> bool, byKey: Comparator, fallback: Comparator): Comparator {
    (a: FileInfo, b: FileInfo) =>
      if has(a) && has(b) then byKey(a, b)
      else if has(a) then -1
      else if has(b) then 1
      else fallback(a, b)
  }

  lemma MissingLastPreorder(has: FileInfo -> bool, byKey: Comparator, fallback: Comparator)
    requires TotalPreorder(byKey) && TotalPreorder(fallback)
    ensures TotalPreorder(MissingLast(has, byKey, fallback))
  {
    var c := MissingLast(has, byKey, fallback);
    forall a, b, d | c(a, b) <= 0 && c(b, d) <= 0
      ensures c(a, d) <= 0
    {
      if has(a) && has(b) && has(d) {
        assert byKey(a, b) <= 0 && byKey(b, d) <= 0;
      } else if !has(a) && !has(b) && !has(d) {
        assert fallback(a, b) <= 0 && fallback(b, d) <= 0;
      }
    }
  }

  /** A date key: newest first. */
  function ByDate(date: FileInfo -> Option<int>, reversed: bool): Comparator {
    (a: FileInfo, b: FileInfo) => FromCmp(DateCompare(DateOr(date(b)), DateOr(date(a))), reversed)
  }

  function DateOr(d: Option<int>): int {
    if d.Some? then d.value else 0
  }

  lemma ByDatePreorder(date: FileInfo -> Option<int>, reversed: bool)
    ensures TotalPreorder(ByDate(date, reversed))
  {
    var c := ByDate(date, reversed);
    forall a, b, d | c(a, b) <= 0 && c(b, d) <= 0
      ensures c(a, d) <= 0
    {
      var x, y, z := DateOr(date(a)), DateOr(date(b)), DateOr(date(d));
      if reversed {
        assert x <= y <= z;
      } else {
        assert x >= y >= z;
      }
    }
    forall a, b
      ensures c(a, b) == -c(b, a)
    {
      var x, y := DateOr(date(a)), DateOr(date(b));
      assert DateCompare(y, x) == -DateCompare(x, y);
    }
  }

  /** Sizes: larger first, equal sizes equal whatever the direction. */
  function BySize(reversed: bool): Comparator {
    (a: FileInfo, b: FileInfo) => if a.size == b.size then 0 else FromCmp(if a.size < b.size then 1 else -1, reversed)
  }

  lemma BySizePreorder(reversed: bool)
    ensures TotalPreorder(BySize(reversed))
  {
    var c := BySize(reversed);
    forall a, b, d | c(a, b) <= 0 && c(b, d) <= 0
      ensures c(a, d) <= 0
    {
      if reversed {
        assert a.size <= b.size <= d.size;
      } else {
        assert a.size >= b.size >= d.size;
      }
    }
    forall a, b
      ensures c(a, b) == -c(b, a)
    {
      if a.size != b.size {
        assert FromCmp(if a.size < b.size then 1 else -1, reversed)
          == -FromCmp(if b.size < a.size then 1 else -1, reversed);
      }
    }
  }

  function Modified(f: FileInfo): Option<int> { f.modified }
  function Created(f: FileInfo): Option<int> { f.created }
  predicate HasModified(f: FileInfo) { f.modified.Some? }
  predicate HasCreated(f: FileInfo) { f.created.Some? }
  /** A size of zero counts as no size. */
  predicate HasSize(f: FileInfo) { f.size != 0 }
  predicate HasType(f: FileInfo) { f.contentType != "" }

  function DirRank(f: FileInfo): int {
    if IsDir(f) then 0 else 1
  }

  function DotRank(f: FileInfo): int {
    if DotFile(f) then 1 else 0
  }

  /** The key stage of the corrected order: items without the key after those with it. */
  function KeyOrder(s: Settings, coll: Collation): Comparator {
    var names := ByName(coll, s.reversed);
    if s.sortBy == "modified" then MissingLast(HasModified, ByDate(Modified, s.reversed), names)
    else if s.sortBy == "created" then MissingLast(HasCreated, ByDate(Created, s.reversed), names)
    else if s.sortBy == "size" then Lex(ByRank(DirRank), MissingLast(HasSize, BySize(s.reversed), names))
    else if s.sortBy == "type" then MissingLast(HasType, ByType(coll, s.reversed), names)
    else names
  }

  /** Lines 104-158 with the corrected key stage. */
  function GeneralOrder(s: Settings, coll: Collation): Comparator {
    var chain := Lex(ByRank(DotRank), KeyOrder(s, coll));
    if s.foldersFirst then Lex(ByRank(DirRank), chain) else chain
  }

  lemma KeyOrderPreorder(s: Settings, coll: Collation)
    requires CollationLaws(coll)
    ensures TotalPreorder(KeyOrder(s, coll))
  {
    var names := ByName(coll, s.reversed);
    ByNamePreorder(coll, s.reversed);
    if s.sortBy == "modified" {
      ByDatePreorder(Modified, s.reversed);
      MissingLastPreorder(HasModified, ByDate(Modified, s.reversed), names);
    } else if s.sortBy == "created" {
      ByDatePreorder(Created, s.reversed);
      MissingLastPreorder(HasCreated, ByDate(Created, s.reversed), names);
    } else if s.sortBy == "size" {
      BySizePreorder(s.reversed);
      MissingLastPreorder(HasSize, BySize(s.reversed), names);
      ByRankPreorder(DirRank);
      LexPreorder(ByRank(DirRank), MissingLast(HasSize, BySize(s.reversed), names));
    } else if s.sortBy == "type" {
      ByTypePreorder(coll, s.reversed);
      MissingLastPreorder(HasType, ByType(coll, s.reversed), names);
    }
  }

  /** The corrected order is a total preorder for every setting. */
  lemma GeneralOrderPreorder(s: Settings, coll: Collation)
    requires CollationLaws(coll)
    ensures TotalPreorder(GeneralOrder(s, coll))
  {
    KeyOrderPreorder(s, coll);
    ByRankPreorder(DotRank);
    LexPreorder(ByRank(DotRank), KeyOrder(s, coll));
    if s.foldersFirst {
      ByRankPreorder(DirRank);
      LexPreorder(ByRank(DirRank), Lex(ByRank(DotRank), KeyOrder(s, coll)));
    }
  }

  /** `do_compare` with the corrected key stage. */
  function CompareCorrected(i1: Option<FileInfo>, i2: Option<FileInfo>, s: Settings, coll: Collation): (o: int)
    ensures i1.None? || i2.None? ==> o == 0
    ensures i1.Some? && i2.Some? && Ordinary(i1.value) ==> o == GeneralOrder(s, coll)(i1.value, i2.value)
  {
    if i1.None? || i2.None? then 0
    else
      var a, b := i1.value, i2.value;
      if TopTrash(a) then
        if a.deletionDate.None? || b.deletionDate.None? then 0
        else FromCmp(DateCompare(b.deletionDate.value, a.deletionDate.value), s.reversed)
      else if a.scheme == "recent" && a.recentModified.Some? && b.recentModified.Some? then
        FromCmp(DateCompare(b.recentModified.value, a.recentModified.value), s.reversed)
      else GeneralOrder(s, coll)(a, b)
  }

  /** Among ordinary items the corrected comparison is transitive. */
  lemma CorrectedTransitive(a: FileInfo, b: FileInfo, d: FileInfo, s: Settings, coll: Collation)
    requires CollationLaws(coll) && Ordinary(a) && Ordinary(b) && Ordinary(d)
    requires CompareCorrected(Some(a), Some(b), s, coll) <= 0 && CompareCorrected(Some(b), Some(d), s, coll) <= 0
    ensures CompareCorrected(Some(a), Some(d), s, coll) <= 0
  {
    GeneralOrderPreorder(s, coll);
  }

  /** Where both items have the sort key, the corrected comparison is the source's. */
  lemma CorrectedAgreesWithKeys(a: FileInfo, b: FileInfo, s: Settings, coll: Collation)
    requires Ordinary(a)
    requires s.sortBy == "modified" ==> a.modified.Some? && b.modified.Some?
    requires s.sortBy == "created" ==> a.created.Some? && b.created.Some?
    requires s.sortBy == "size" ==> a.size != 0 && b.size != 0
    requires s.sortBy == "type" ==> a.contentType != "" && b.contentType != ""
    ensures CompareCorrected(Some(a), Some(b), s, coll) == Compare(Some(a), Some(b), s, coll)
  {
    var key := KeyOrder(s, coll)(a, b);
    var chain := Lex(ByRank(DotRank), KeyOrder(s, coll));
    assert ByRank(DotRank)(a, b) == Sign(DotRank(a) - DotRank(b));
    assert ByRank(DirRank)(a, b) == Sign(DirRank(a) - DirRank(b));
    assert GeneralOrder(s, coll)(a, b) == if s.foldersFirst && IsDir(a) != IsDir(b) then FoldersFirst(a, b) else chain(a, b);
    if s.foldersFirst && IsDir(a) != IsDir(b) {
    } else if DotFile(a) != DotFile(b) {
      assert DotRank(a) != DotRank(b);
    } else if s.sortBy == "size" {
      assert chain(a, b) == key;
      var sized := MissingLast(HasSize, BySize(s.reversed), ByName(coll, s.reversed));
      assert key == Lex(ByRank(DirRank), sized)(a, b);
      assert sized(a, b) == BySize(s.reversed)(a, b);
    } else if s.sortBy == "modified" {
      assert chain(a, b) == key;
      assert key == ByDate(Modified, s.reversed)(a, b);
      assert DateOr(Modified(a)) == a.modified.value && DateOr(Modified(b)) == b.modified.value;
    } else if s.sortBy == "created" {
      assert chain(a, b) == key;
      assert key == ByDate(Created, s.reversed)(a, b);
      assert DateOr(Created(a)) == a.created.value && DateOr(Created(b)) == b.created.value;
    } else if s.sortBy == "type" {
      assert chain(a, b) == key;
      assert key == ByType(coll, s.reversed)(a, b);
    } else {
      assert chain(a, b) == key;
      assert key == ByName(coll, s.reversed)(a, b);
    }
  }
}
