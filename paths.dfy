/** File-name rules the converters rely on: pathlib's `suffix` and `stem`,
    ASCII lower-casing and membership in a list of extensions. */
module Paths {

  /** A path as its parent directory and its final component (`Path.parent`, `Path.name`). */
  datatype FilePath = FilePath(dir: string, name: string)

  /** `Path(dir) / sub` for a sub-directory, as a directory string. */
  function JoinDir(dir: string, sub: string): (r: string)
    ensures |r| == |dir| + 1 + |sub| && r[..|dir|] == dir && r[|dir|] == '/' && r[|dir| + 1..] == sub
  {
    dir + "/" + sub
  }

  /** `str.rfind(c)`: the last index of `c`, or -1 when `c` does not occur. */
  function LastIndexOf(s: string, c: char): (i: int)
    ensures -1 <= i < |s|
    ensures i >= 0 ==> s[i] == c
    ensures forall k :: i < k < |s| ==> s[k] != c
  {
    if s == [] then -1
    else if s[|s| - 1] == c then |s| - 1
    else LastIndexOf(s[..|s| - 1], c)
  }

  /** pathlib keeps a dot as the start of a suffix only when it is neither the
      first character of the name nor its last. */
  predicate HasSuffix(name: string)
  {
    0 < LastIndexOf(name, '.') < |name| - 1
  }

  /** `Path.suffix`: the final extension including its dot, or "". */
  function Suffix(name: string): (r: string)
    ensures HasSuffix(name) ==> |r| >= 2 && r[0] == '.' && '.' !in r[1..]
    ensures !HasSuffix(name) ==> r == ""
  {
    if HasSuffix(name) then name[LastIndexOf(name, '.')..] else ""
  }

  /** `Path.stem`: the name without its suffix. */
  function Stem(name: string): (r: string)
    ensures |r| <= |name| && r == name[..|r|]
  {
    if HasSuffix(name) then name[..LastIndexOf(name, '.')] else name
  }

  /** The stem and the suffix together give back the whole name. */
  lemma StemSuffixSplit(name: string)
    ensures Stem(name) + Suffix(name) == name
  {
    if HasSuffix(name) {
      var i := LastIndexOf(name, '.');
      assert name[..i] + name[i..] == name;
    }
  }

  /** A name ending in "." followed by a dot-free extension of at least one
      character, with a non-empty part before it, has exactly that extension as
      its suffix and the part before it as its stem. */
  lemma {:induction false} SuffixOfAppend(base: string, ext: string)
    requires |base| > 0 && |ext| > 0 && '.' !in ext
    ensures Suffix(base + "." + ext) == "." + ext
    ensures Stem(base + "." + ext) == base
  {
    var name := base + "." + ext;
    LastDotOfAppend(base, ext);
    assert name[|base|..] == "." + ext;
  }

  lemma {:induction false} LastDotOfAppend(base: string, ext: string)
    requires '.' !in ext
    ensures LastIndexOf(base + "." + ext, '.') == |base|
  {
    var name := base + "." + ext;
    assert name[|base|] == '.';
    assert forall k :: |base| < k < |name| ==> name[k] == ext[k - |base| - 1];
  }

  /** Lower-casing of one character (ASCII letters only). */
  function LowerChar(c: char): (r: char)
    ensures 'A' <= c <= 'Z' ==> r as int == c as int + 32
    ensures !('A' <= c <= 'Z') ==> r == c
  {
    if 'A' <= c <= 'Z' then (c as int + 32) as char else c
  }

  /** `str.lower()` restricted to ASCII letters. */
  function Lower(s: string): (r: string)
    ensures |r| == |s|
  {
    if s == [] then [] else [LowerChar(s[0])] + Lower(s[1..])
  }

  /** Each character is lowered on its own. */
  lemma {:induction false} LowerAt(s: string, k: nat)
    requires k < |s|
    ensures Lower(s)[k] == LowerChar(s[k])
    decreases |s|
  {
    if k > 0 {
      LowerAt(s[1..], k - 1);
    }
  }

  /** Lower-casing twice is lower-casing once, so a lower-cased extension
      compares the same however often it is lowered. */
  lemma {:induction false} LowerIdempotent(s: string)
    ensures Lower(Lower(s)) == Lower(s)
    decreases |s|
  {
    if s != [] {
      LowerIdempotent(s[1..]);
      var c := s[0];
      if 'A' <= c <= 'Z' {
        assert 'a' <= LowerChar(c) <= 'z';
      }
      assert Lower(s)[1..] == Lower(s[1..]);
    }
  }

  /** Upper-casing of one character (ASCII letters only). */
  function UpperChar(c: char): (r: char)
    ensures 'a' <= c <= 'z' ==> r as int == c as int - 32
    ensures !('a' <= c <= 'z') ==> r == c
  {
    if 'a' <= c <= 'z' then (c as int - 32) as char else c
  }

  /** `str.upper()` restricted to ASCII letters. */
  function Upper(s: string): (r: string)
    ensures |r| == |s|
  {
    if s == [] then [] else [UpperChar(s[0])] + Upper(s[1..])
  }

  /** Upper-casing loses nothing a case-insensitive comparison sees. */
  lemma {:induction false} LowerOfUpper(s: string)
    ensures Lower(Upper(s)) == Lower(s)
    decreases |s|
  {
    if s != [] {
      LowerOfUpper(s[1..]);
      assert LowerChar(UpperChar(s[0])) == LowerChar(s[0]);
      assert Upper(s)[1..] == Upper(s[1..]);
    }
  }

  /** Membership in a list of extensions, checked one entry at a time. */
  predicate Listed(x: string, xs: seq<string>)
    decreases |xs|
  {
    |xs| > 0 && (xs[0] == x || Listed(x, xs[1..]))
  }

  lemma {:induction false} ListedIsIn(x: string, xs: seq<string>)
    ensures Listed(x, xs) <==> x in xs
    decreases |xs|
  {
    if |xs| > 0 {
      ListedIsIn(x, xs[1..]);
      assert xs == [xs[0]] + xs[1..];
    }
  }
}
