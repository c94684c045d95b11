/**
 * The parts of pathlib's POSIX path algebra the watcher relies on: the final
 * component (`name`), its extension (`suffix`), the name without it (`stem`),
 * `with_suffix`, and the hidden-file test of `_is_candidate`.
 */
module Paths {
  import opened Text

  /** A single path component: non-empty, no separator, and not the "." that pathlib drops. */
  predicate IsBareName(s: string) {
    s != [] && '/' !in s && s != "."
  }

  /**
   * PurePosixPath(path).name: the last component once empty and "." components
   * are dropped, or "" when none is left.
   */
  function Name(path: string): (r: string)
    ensures r == [] || IsBareName(r)
    decreases |path|
  {
    if path == [] then []
    else
      var i := LastIndexOf(path, '/');
      var last := path[i + 1..];
      if last == [] || last == "." then (if i < 0 then [] else Name(path[..i]))
      else last
  }

  lemma NameOfBareName(s: string)
    requires IsBareName(s)
    ensures Name(s) == s
  {
    assert LastIndexOf(s, '/') == -1;
  }

  /** Index of the dot that starts the suffix, when the name has one. */
  function SuffixDot(name: string): (i: int)
    ensures i == -1 || (0 < i < |name| - 1 && name[i] == '.' && '.' !in name[i + 1..])
  {
    var i := LastIndexOf(name, '.');
    if 0 < i < |name| - 1 then i else -1
  }

  /** PurePath.suffix: ".ext" from the last dot, unless that dot leads or ends the name. */
  function Suffix(path: string): (r: string)
    ensures r == [] || (|r| >= 2 && r[0] == '.' && '.' !in r[1..] && '/' !in r)
  {
    var n := Name(path);
    var i := SuffixDot(n);
    if i < 0 then [] else n[i..]
  }

  /** PurePath.stem: the name without its suffix. */
  function Stem(path: string): (r: string)
    ensures '/' !in r
  {
    var n := Name(path);
    var i := SuffixDot(n);
    if i < 0 then n else n[..i]
  }

  /** The stem followed by the suffix is the name, and a name with a suffix has a non-empty stem. */
  lemma StemSuffix(path: string)
    ensures Stem(path) + Suffix(path) == Name(path)
    ensures Suffix(path) != [] ==> Stem(path) != []
  {
    var n := Name(path);
    var i := SuffixDot(n);
    if i >= 0 {
      assert n[..i] + n[i..] == n;
    }
  }

  /** A name written as a stem followed by a one-dot suffix splits back into exactly those two parts. */
  lemma SplitSuffix(base: string, ext: string)
    requires base != [] && '/' !in base
    requires |ext| >= 2 && ext[0] == '.' && '.' !in ext[1..] && '/' !in ext
    ensures Suffix(base + ext) == ext && Stem(base + ext) == base
  {
    var n := base + ext;
    var k := |base|;
    assert '/' !in n;
    NameOfBareName(n);
    LastIndexOfJoin(base, ext, '.');
    assert n[..k] == base && n[k..] == ext;
  }

  /**
   * PurePath.with_suffix(suffix) on a bare name: the stem followed by the new suffix.
   * pathlib rejects an empty name and a suffix that is not "." followed by something.
   */
  function WithSuffix(name: string, suffix: string): (r: string)
    requires IsBareName(name)
    requires |suffix| >= 2 && suffix[0] == '.' && '/' !in suffix
    ensures EndsWith(r, suffix)
  {
    Stem(name) + suffix
  }

  /** Replacing the suffix of a bare name by that suffix followed by more text appends the text to the name. */
  lemma ReplaceSuffixAppends(name: string, more: string)
    requires IsBareName(name)
    ensures Stem(name) + (Suffix(name) + more) == name + more
  {
    NameOfBareName(name);
    StemSuffix(name);
    var stem, suffix := Stem(name), Suffix(name);
    ConcatAssoc(stem, suffix, more);
  }

  /**
   * The temporary download name: `final.with_suffix(final.suffix + ".part")`.
   * Whether or not the name has a suffix, this is the name with ".part" appended.
   */
  function PartName(final: string): (r: string)
    requires IsBareName(final)
    ensures r == final + ".part"
  {
    var ext := Suffix(final) + ".part";
    assert |ext| >= 2 && ext[0] == '.' && '/' !in ext by {
      assert Suffix(final) == [] || Suffix(final)[0] == '.';
      assert '/' !in Suffix(final) && '/' !in ".part";
    }
    ReplaceSuffixAppends(final, ".part");
    WithSuffix(final, ext)
  }

  /** The test `path.name.startswith(".")` that keeps hidden files out of the hot folder. */
  predicate IsHidden(name: string) {
    StartsWith(name, ".")
  }
}
