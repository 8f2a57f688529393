/**
 * The few `pathlib` operations the script relies on, for POSIX paths written as strings:
 * the final component (`name`), its extension (`suffix`) and the rest (`stem`), and joining a
 * directory with a file name.
 */
module Paths {
  import opened Base
  import opened Strings

  /** `s.rfind(c)`, as an option: the index of the last occurrence of `c` in `s`. */
  function LastIndex(s: string, c: char): (r: Option<nat>)
    ensures r.Some? ==> r.value < |s| && s[r.value] == c && c !in s[r.value + 1..]
    ensures r.None? ==> c !in s
  {
    if s == [] then None
    else if s[|s| - 1] == c then Some(|s| - 1)
    else
      var init := s[..|s| - 1];
      match LastIndex(init, c)
      case None =>
        assert s == init + [s[|s| - 1]];
        None
      case Some(i) =>
        assert s[i + 1..] == init[i + 1..] + [s[|s| - 1]];
        Some(i)
  }

  /** `Path(path).name`: the text after the last `/`. */
  function Name(path: string): (r: string)
    ensures '/' !in r
    ensures EndsWith(path, r)
  {
    match LastIndex(path, '/')
    case Some(i) => path[i + 1..]
    case None => path
  }

  /**
   * `Path(path).suffix`: from the last `.` of the name, when that dot is neither the name's first
   * character nor its last; otherwise empty.
   */
  function Suffix(path: string): string
  {
    var name := Name(path);
    match LastIndex(name, '.')
    case Some(i) => if 0 < i < |name| - 1 then name[i..] else ""
    case None => ""
  }

  /** `Path(path).stem`: the name without its suffix. */
  function Stem(path: string): string
  {
    var name := Name(path);
    match LastIndex(name, '.')
    case Some(i) => if 0 < i < |name| - 1 then name[..i] else name
    case None => name
  }

  /** `Path(dir) / name` */
  function Child(dir: string, name: string): string
  {
    dir + "/" + name
  }

  /** An extension as `suffix` reports it: a dot, then at least one character, none of them a dot or `/`. */
  predicate IsExtension(ext: string)
  {
    |ext| >= 2 && ext[0] == '.' && '.' !in ext[1..] && '/' !in ext
  }

  /** A name's part from a dot that is neither its first nor its last character, with no dot after it, is an extension. */
  lemma ExtensionAt(name: string, i: nat)
    requires 0 < i < |name| - 1 && name[i] == '.' && '.' !in name[i + 1..] && '/' !in name
    ensures IsExtension(name[i..]) && name[..i] != []
    ensures name == name[..i] + name[i..] && '/' !in name[..i]
  {
    assert name[i..][1..] == name[i + 1..];
    assert forall k :: 0 <= k < i ==> name[..i][k] == name[k];
    assert forall k :: 0 <= k < |name| - i ==> name[i..][k] == name[i + k];
  }

  /** The name splits into stem and suffix; a suffix is empty or an extension, and then the stem is not empty. */
  lemma {:induction false} NameParts(path: string)
    ensures Name(path) == Stem(path) + Suffix(path)
    ensures Suffix(path) == "" || (IsExtension(Suffix(path)) && Stem(path) != "")
    ensures '/' !in Stem(path)
  {
    var name := Name(path);
    var dot := LastIndex(name, '.');
    if dot.Some? && 0 < dot.value < |name| - 1 {
      ExtensionAt(name, dot.value);
      assert Stem(path) == name[..dot.value] && Suffix(path) == name[dot.value..];
    } else {
      assert Stem(path) == name && Suffix(path) == "";
      assert name + "" == name;
    }
  }

  /** The last occurrence is the one with none of the character after it. */
  lemma {:induction false} LastIndexIs(s: string, c: char, i: nat)
    requires i < |s| && s[i] == c && c !in s[i + 1..]
    ensures LastIndex(s, c) == Some(i)
    decreases |s|
  {
    if i < |s| - 1 {
      assert s[|s| - 1] == s[i + 1..][|s| - i - 2];
      var init := s[..|s| - 1];
      assert init[i + 1..] == s[i + 1..|s| - 1];
      LastIndexIs(init, c, i);
    }
  }

  /** Joining a directory with a bare file name keeps the file name as the path's name. */
  lemma {:induction false} ChildName(dir: string, name: string)
    requires '/' !in name
    ensures Name(Child(dir, name)) == name
  {
    var path := Child(dir, name);
    assert path[|dir| + 1..] == name;
    LastIndexIs(path, '/', |dir|);
  }

  /** A file named `stem + ext` in any directory has name `stem + ext`, suffix `ext` and stem `stem`. */
  lemma {:induction false} ChildParts(dir: string, stem: string, ext: string)
    requires stem != "" && '/' !in stem && IsExtension(ext)
    ensures Name(Child(dir, stem + ext)) == stem + ext
    ensures Suffix(Child(dir, stem + ext)) == ext
    ensures Stem(Child(dir, stem + ext)) == stem
  {
    var name := stem + ext;
    assert '/' !in name;
    ChildName(dir, name);
    assert name[|stem| + 1..] == ext[1..];
    LastIndexIs(name, '.', |stem|);
    assert name[|stem|..] == ext && name[..|stem|] == stem;
  }
}
