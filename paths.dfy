/**
 * File-system paths as `std::path::Path` sees them: a sequence of
 * components. Only what the player uses is modelled: the file name, its
 * stem and extension, and `starts_with`.
 */
module Paths {
  import opened Wrappers
  import opened Text

  /** A path, as the list of its components (`a/b/c.mp3` is `["a", "b", "c.mp3"]`). */
  datatype Path = Path(components: seq<String>)

  /** `path.file_name()`: the last component, unless there is none or it is `..`. */
  function FileName(p: Path): (r: Option<String>)
    ensures r.Some? ==> |p.components| > 0 && r.value == p.components[|p.components| - 1]
    ensures r.None? <==> p.components == [] || p.components[|p.components| - 1] == ".."
  {
    if p.components == [] then None
    else
      var last := p.components[|p.components| - 1];
      if last == ".." then None else Some(last)
  }

  /** The position of the last `c` in `s`, if any. */
  function LastIndexOf(s: String, c: char): (r: Option<nat>)
    ensures r.Some? ==> r.value < |s| && s[r.value] == c
    ensures r.Some? ==> forall i :: r.value < i < |s| ==> s[i] != c
    ensures r.None? ==> forall i :: 0 <= i < |s| ==> s[i] != c
  {
    if s == [] then None
    else if s[|s| - 1] == c then Some(|s| - 1)
    else LastIndexOf(s[..|s| - 1], c)
  }

  /**
   * How Rust splits a file name into stem and extension: at the last `.`,
   * except that a name whose only `.` is its first character (`.mp3`) has no
   * extension and is all stem.
   */
  function SplitExtension(name: String): (r: (String, Option<String>))
    ensures r.1.None? ==> r.0 == name
    ensures r.1.Some? ==> name == r.0 + "." + r.1.value && r.0 != []
    ensures r.1.Some? ==> forall i :: 0 <= i < |r.1.value| ==> r.1.value[i] != '.'
    ensures r.1.None? ==> forall i :: 0 < i < |name| ==> name[i] != '.'
  {
    match LastIndexOf(name, '.')
    case None => (name, None)
    case Some(k) =>
      if k == 0 then (name, None)
      else
        assert name == name[..k] + "." + name[k + 1..];
        (name[..k], Some(name[k + 1..]))
  }

  /** `path.file_stem()`. */
  function FileStem(p: Path): (r: Option<String>)
    ensures r.Some? <==> FileName(p).Some?
    ensures r.Some? ==> r.value <= FileName(p).value
  {
    match FileName(p)
    case None => None
    case Some(name) => Some(SplitExtension(name).0)
  }

  /** `path.extension()`. */
  function Extension(p: Path): (r: Option<String>)
    ensures r.Some? ==> FileName(p).Some? && FileStem(p).Some?
    ensures r.Some? ==> FileName(p).value == FileStem(p).value + "." + r.value && FileStem(p).value != []
    ensures r.Some? ==> '.' !in r.value
  {
    match FileName(p)
    case None => None
    case Some(name) => SplitExtension(name).1
  }

  /** The last `c` of `s + [c] + t` is the one before `t` when `t` has none. */
  lemma {:induction false} LastIndexOfBefore(s: String, c: char, t: String)
    requires c !in t
    ensures LastIndexOf(s + [c] + t, c) == Some(|s|)
    decreases |t|
  {
    var name := s + [c] + t;
    if t == [] {
      assert name[|name| - 1] == c;
    } else {
      var init := t[..|t| - 1];
      assert t[|t| - 1] in t;
      assert name[..|name| - 1] == s + [c] + init;
      assert forall x :: x in init ==> x in t;
      LastIndexOfBefore(s, c, init);
    }
  }

  /**
   * Splitting undoes joining: a non-empty stem and an extension without a dot
   * come back apart from `stem.ext`.
   */
  lemma SplitExtensionOfJoined(stem: String, ext: String)
    requires stem != [] && '.' !in ext
    ensures SplitExtension(stem + "." + ext) == (stem, Some(ext))
  {
    var name := stem + "." + ext;
    LastIndexOfBefore(stem, '.', ext);
    assert name[..|stem|] == stem;
    assert name[|stem| + 1..] == ext;
  }

  /** `path.starts_with(base)`: `base` is a prefix of `p`, component by component. */
  predicate StartsWith(p: Path, base: Path): (b: bool)
    ensures b <==> (|base.components| <= |p.components| &&
      forall i :: 0 <= i < |base.components| ==> p.components[i] == base.components[i])
  {
    base.components <= p.components
  }
}
