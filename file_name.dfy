// Model of the file-name extension properties of
// jdk7/src/main/kotlin/org/glavo/nio/file/Path.kt (`extension`,
// `nameWithoutExtension`), together with the Kotlin standard-library string
// functions they are written with. Names are the string form of
// `Path.fileName`.
module FileNames {

  /** Kotlin's `String.lastIndexOf(Char)`: the index of the last occurrence of
      `c` in `s`, or -1 when there is none. */
  function LastIndexOfChar(s: string, c: char): (r: int)
    ensures -1 <= r < |s|
    ensures r == -1 <==> c !in s
    ensures r >= 0 ==> s[r] == c && c !in s[r + 1..]
    decreases |s|
  {
    if |s| == 0 then -1
    else if s[|s| - 1] == c then |s| - 1
    else
      var r := LastIndexOfChar(s[..|s| - 1], c);
      assert s == s[..|s| - 1] + [s[|s| - 1]];
      r
  }

  /** `d` occurs in `s` starting at index `k`. */
  predicate OccursAt(s: string, d: string, k: int)
  {
    0 <= k && k + |d| <= |s| && s[k..k + |d|] == d
  }

  /** The greatest `j <= k` at which `d` occurs in `s`, or -1. */
  function LastOccurrenceFrom(s: string, d: string, k: int): (r: int)
    requires k + |d| <= |s|
    ensures r >= -1 && (r >= 0 ==> r <= k && OccursAt(s, d, r))
    ensures forall j :: r < j <= k ==> !OccursAt(s, d, j)
    decreases k + 1
  {
    if k < 0 then -1
    else if s[k..k + |d|] == d then k
    else LastOccurrenceFrom(s, d, k - 1)
  }

  /** Kotlin's `String.lastIndexOf(String)`, which is Java's
      `lastIndexOf(d, length - 1)`: the last occurrence of `d` starting no
      later than the last index of `s`, or -1. */
  function LastIndexOfString(s: string, d: string): (r: int)
    ensures -1 <= r < |s|
    ensures r >= 0 ==> OccursAt(s, d, r)
    ensures forall j :: r < j < |s| ==> !OccursAt(s, d, j)
  {
    var start := if |s| - |d| < |s| - 1 then |s| - |d| else |s| - 1;
    LastOccurrenceFrom(s, d, start)
  }

  /** Searching for the one-character string `[c]` finds what searching for
      the character `c` finds. */
  lemma LastIndexOfSingleCharString(s: string, c: char)
    ensures LastIndexOfString(s, [c]) == LastIndexOfChar(s, c)
  {
    var r, q := LastIndexOfString(s, [c]), LastIndexOfChar(s, c);
    forall j | 0 <= j < |s|
      ensures OccursAt(s, [c], j) <==> s[j] == c
    {
      assert s[j..j + 1] == [s[j]];
    }
    if q >= 0 {
      assert OccursAt(s, [c], q);
      assert q <= r;
    }
    if r >= 0 {
      assert s[r] == c;
      assert r <= q;
    }
  }

  /** Kotlin's `String.substringAfterLast(delimiter: Char, missing)`. */
  function SubstringAfterLast(s: string, delimiter: char, missing: string): (r: string)
    ensures delimiter !in s ==> r == missing
    ensures delimiter in s ==>
              delimiter !in r && |r| < |s| && s == s[..|s| - |r| - 1] + [delimiter] + r
  {
    var i := LastIndexOfChar(s, delimiter);
    if i == -1 then missing
    else
      assert s == s[..i] + [delimiter] + s[i + 1..];
      s[i + 1..]
  }

  /** Kotlin's `String.substringBeforeLast(delimiter: String, missing)`. */
  function SubstringBeforeLast(s: string, delimiter: string, missing: string): (r: string)
    ensures (forall j :: 0 <= j < |s| ==> !OccursAt(s, delimiter, j)) ==> r == missing
    ensures (exists j :: 0 <= j < |s| && OccursAt(s, delimiter, j)) ==>
              |r| < |s| && r == s[..|r|] && OccursAt(s, delimiter, |r|)
              && forall j :: |r| < j < |s| ==> !OccursAt(s, delimiter, j)
  {
    var i := LastIndexOfString(s, delimiter);
    if i == -1 then missing else s[..i]
  }

  /** `Path.extension`: the text after the last '.', or "" without a dot. */
  function Extension(name: string): (r: string)
    ensures '.' !in r
    ensures '.' !in name ==> r == ""
    ensures '.' in name ==> |r| < |name| && name == name[..|name| - |r| - 1] + "." + r
  {
    SubstringAfterLast(name, '.', "")
  }

  /** `Path.nameWithoutExtension`: the text before the last ".", or the whole
      name without a dot. */
  function NameWithoutExtension(name: string): (r: string)
    ensures '.' !in name ==> r == name
    ensures '.' in name ==>
              |r| < |name| && name[..|r|] == r && name[|r|] == '.' && '.' !in name[|r| + 1..]
  {
    LastIndexOfSingleCharString(name, '.');
    SubstringBeforeLast(name, ".", name)
  }

  /** A name with a dot is its base name, the last dot and its extension. */
  lemma SplitRejoin(name: string)
    requires '.' in name
    ensures NameWithoutExtension(name) + "." + Extension(name) == name
  {
  }

  /** Joining a base name and a dot-free extension with "." and splitting
      again gives both parts back. */
  lemma JoinSplit(base: string, ext: string)
    requires '.' !in ext
    ensures Extension(base + "." + ext) == ext
    ensures NameWithoutExtension(base + "." + ext) == base
  {
    var name := base + "." + ext;
    assert name[|base|] == '.';
    var e := Extension(name);
    var b := NameWithoutExtension(name);
    SplitRejoin(name);
    assert |b| == |base|;
    assert e == name[|name| - |e|..] == ext;
    assert b == name[..|b|] == base;
  }
}
