/** String helpers with the semantics of the Python built-ins the core relies on:
    `str.startswith`, `str.endswith`, `in` on strings, `str.count`, `str.split(sep)`,
    `sep.join(parts)`, `str.lstrip(chars)` / `str.rstrip(chars)` / `str.strip()`. */
module Text {

  datatype Option<T> = None | Some(value: T)

  predicate StartsWith(s: string, prefix: string) {
    |prefix| <= |s| && s[..|prefix|] == prefix
  }

  predicate EndsWith(s: string, suffix: string) {
    |suffix| <= |s| && s[|s| - |suffix|..] == suffix
  }

  /** `needle in s` for strings. */
  predicate Contains(s: string, needle: string)
    decreases |s|
  {
    StartsWith(s, needle) || (|s| > 0 && Contains(s[1..], needle))
  }

  /** `s.count(c)` for a one-character argument. */
  function CountChar(s: string, c: char): (n: nat)
    ensures n <= |s|
    ensures n == 0 <==> c !in s
  {
    if s == [] then 0 else (if s[0] == c then 1 else 0) + CountChar(s[1..], c)
  }

  /** `sep.join(parts)`. */
  function Join(parts: seq<string>, sep: string): string {
    if |parts| == 0 then ""
    else if |parts| == 1 then parts[0]
    else parts[0] + sep + Join(parts[1..], sep)
  }

  /** `s.split(sep)`: cut at every leftmost, non-overlapping occurrence of `sep`. */
  function SplitOn(s: string, sep: string): (parts: seq<string>)
    requires |sep| > 0
    ensures |parts| >= 1
    decreases |s|
  {
    if |s| < |sep| then [s]
    else if s[..|sep|] == sep then [""] + SplitOn(s[|sep|..], sep)
    else
      var rest := SplitOn(s[1..], sep);
      [[s[0]] + rest[0]] + rest[1..]
  }

  predicate NoPartHas(parts: seq<string>, c: char) {
    forall i :: 0 <= i < |parts| ==> c !in parts[i]
  }

  /** Splitting on a one-character separator never leaves the separator in a part. */
  lemma {:induction false} SplitOnCharParts(s: string, c: char)
    ensures NoPartHas(SplitOn(s, [c]), c)
    decreases |s|
  {
    if |s| >= 1 {
      SplitOnCharParts(s[1..], c);
    }
  }

  /** A string that starts with a character other than the separator's first one
      contributes that character to the first part. */
  lemma {:induction false} SplitOnPrepend(a: string, rest: string, sep: string)
    requires |sep| > 0
    requires sep[0] !in a
    ensures SplitOn(a + rest, sep)
         == [a + SplitOn(rest, sep)[0]] + SplitOn(rest, sep)[1..]
    decreases |a|
  {
    if |a| > 0 {
      var s := a + rest;
      assert s[0] == a[0];
      assert s[1..] == a[1..] + rest;
      SplitOnPrepend(a[1..], rest, sep);
      var r := SplitOn(rest, sep);
      if |s| >= |sep| {
        assert s[..|sep|][0] == a[0];
        var tail := SplitOn(s[1..], sep);
        assert tail[0] == a[1..] + r[0] && tail[1..] == r[1..];
        assert [s[0]] + tail[0] == a + r[0];
      }
    } else {
      assert a + rest == rest;
      var r := SplitOn(rest, sep);
      assert a + r[0] == r[0];
      assert [r[0]] + r[1..] == r;
    }
  }

  /** Splitting the joined text gives the parts back, provided no part contains the
      separator's first character. */
  lemma {:induction false} SplitJoin(parts: seq<string>, sep: string)
    requires |sep| > 0 && |parts| >= 1
    requires NoPartHas(parts, sep[0])
    ensures SplitOn(Join(parts, sep), sep) == parts
    decreases |parts|
  {
    if |parts| == 1 {
      SplitOnPrepend(parts[0], "", sep);
      assert parts[0] + "" == parts[0];
    } else {
      var tail := Join(parts[1..], sep);
      assert Join(parts, sep) == parts[0] + (sep + tail);
      SplitOnPrepend(parts[0], sep + tail, sep);
      var s := sep + tail;
      assert s[..|sep|] == sep;
      assert s[|sep|..] == tail;
      SplitJoin(parts[1..], sep);
      assert SplitOn(s, sep) == [""] + parts[1..];
      assert parts[0] + "" == parts[0];
    }
  }

  /** Joining the parts of a split gives the original text back. */
  lemma {:induction false} JoinSplit(s: string, sep: string)
    requires |sep| > 0
    ensures Join(SplitOn(s, sep), sep) == s
    decreases |s|
  {
    if |s| < |sep| {
    } else if s[..|sep|] == sep {
      var rest := SplitOn(s[|sep|..], sep);
      JoinSplit(s[|sep|..], sep);
      assert s == sep + s[|sep|..];
    } else {
      var rest := SplitOn(s[1..], sep);
      JoinSplit(s[1..], sep);
      var parts := [[s[0]] + rest[0]] + rest[1..];
      if |rest| == 1 {
        assert s == [s[0]] + s[1..];
      } else {
        assert parts[1..] == rest[1..];
        assert Join(rest, sep) == rest[0] + sep + Join(rest[1..], sep);
        assert s == [s[0]] + s[1..];
      }
    }
  }

  /** `s.lstrip(c)` for one character. */
  function LStrip(s: string, c: char): (r: string)
    ensures |r| <= |s| && r == s[|s| - |r|..]
    ensures r == [] || r[0] != c
    ensures forall i :: 0 <= i < |s| - |r| ==> s[i] == c
  {
    if s != [] && s[0] == c then LStrip(s[1..], c) else s
  }

  /** `s.rstrip(c)` for one character. */
  function RStrip(s: string, c: char): (r: string)
    ensures |r| <= |s| && r == s[..|r|]
    ensures r == [] || r[|r| - 1] != c
    ensures forall i :: |r| <= i < |s| ==> s[i] == c
  {
    if s != [] && s[|s| - 1] == c then RStrip(s[..|s| - 1], c) else s
  }

  /** The characters Python's `str.isspace` accepts, which `str.strip()` removes:
      the ASCII controls 9-13 and 28-31, the space, and the Unicode spaces and
      separators U+0085, U+00A0, U+1680, U+2000-U+200A, U+2028, U+2029, U+202F,
      U+205F and U+3000. */
  predicate IsSpace(c: char) {
    ('\U{9}' <= c <= '\U{D}') || ('\U{1C}' <= c <= '\U{20}') || c == '\U{85}' || c == '\U{A0}' ||
    c == '\U{1680}' || ('\U{2000}' <= c <= '\U{200A}') || c == '\U{2028}' || c == '\U{2029}' ||
    c == '\U{202F}' || c == '\U{205F}' || c == '\U{3000}'
  }

  function Strip(s: string): (r: string)
    ensures |r| <= |s|
    ensures r == [] || (!IsSpace(r[0]) && !IsSpace(r[|r| - 1]))
    decreases |s|
  {
    if s == [] then s
    else if IsSpace(s[0]) then Strip(s[1..])
    else if IsSpace(s[|s| - 1]) then Strip(s[..|s| - 1])
    else s
  }

  /** `s` with every occurrence of `x` dropped and the other elements in order. */
  function Without<T(==)>(s: seq<T>, x: T): (r: seq<T>)
    ensures x !in r && |r| <= |s|
  {
    if s == [] then []
    else
      var init := s[..|s| - 1];
      assert s == init + [s[|s| - 1]];
      Without(init, x) + (if s[|s| - 1] == x then [] else [s[|s| - 1]])
  }

  /** Dropping an absent element changes nothing. */
  lemma {:induction false} WithoutAbsent<T>(s: seq<T>, x: T)
    requires x !in s
    ensures Without(s, x) == s
    decreases |s|
  {
    if s != [] {
      var init := s[..|s| - 1];
      assert s == init + [s[|s| - 1]];
      WithoutAbsent(init, x);
    }
  }

  /** Dropping `x` removes exactly its occurrences. */
  lemma {:induction false} WithoutCount<T>(s: seq<T>, x: T)
    ensures multiset(Without(s, x)) == multiset(s)[x := 0]
    decreases |s|
  {
    if s != [] {
      var init := s[..|s| - 1];
      assert s == init + [s[|s| - 1]];
      WithoutCount(init, x);
    }
  }

  /** The elements kept are the others, and the length drops by the occurrences. */
  lemma {:induction false} WithoutMembers<T>(s: seq<T>, x: T)
    ensures forall k :: k in Without(s, x) <==> k in s && k != x
    ensures |Without(s, x)| == |s| - multiset(s)[x]
    decreases |s|
  {
    if s != [] {
      var init := s[..|s| - 1];
      assert s == init + [s[|s| - 1]];
      WithoutMembers(init, x);
    }
  }

  lemma SliceSnoc<T>(s: seq<T>, i: nat)
    requires i < |s|
    ensures s[..i + 1] == s[..i] + [s[i]]
  {
  }

  lemma WithoutSnoc<T>(s: seq<T>, y: T, x: T)
    ensures Without(s + [y], x) == Without(s, x) + (if y == x then [] else [y])
  {
    assert (s + [y])[..|s|] == s;
  }

  /** Dropping distributes over concatenation, so the kept elements stay in order. */
  lemma {:induction false} WithoutConcat<T>(a: seq<T>, b: seq<T>, x: T)
    ensures Without(a + b, x) == Without(a, x) + Without(b, x)
    decreases |b|
  {
    if b == [] {
      assert a + b == a;
    } else {
      var b' := b[..|b| - 1];
      assert (a + b)[..|a + b| - 1] == a + b';
      WithoutConcat(a, b', x);
    }
  }
}
