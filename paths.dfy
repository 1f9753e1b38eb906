/**
 * A model of Ruby's `File.extname` on the slash-separated paths and URLs that
 * a manifest lists: the extension of the last path segment, counted from its
 * last dot, where dots that open the segment do not count.
 */
module Paths {

  /** `t` is a final segment of `s`. */
  predicate IsSuffix(t: string, s: string)
  {
    |t| <= |s| && t == s[|s| - |t|..]
  }

  /** The part of `p` after its last `/` (all of `p` if it has none). */
  function Basename(p: string): string
    decreases |p|
  {
    if p == [] || p[|p| - 1] == '/' then [] else Basename(p[..|p| - 1]) + [p[|p| - 1]]
  }

  /** `s` without the dots it starts with. */
  function DropLeadingDots(s: string): string
    decreases |s|
  {
    if s != [] && s[0] == '.' then DropLeadingDots(s[1..]) else s
  }

  /** The suffix of `s` that starts at its last dot, or empty if it has no dot. */
  function FromLastDot(s: string): string
    decreases |s|
  {
    if s == [] then []
    else if s[|s| - 1] == '.' then "."
    else
      var front := FromLastDot(s[..|s| - 1]);
      if front == [] then [] else front + [s[|s| - 1]]
  }

  /** `File.extname`: the extension of the last segment of `p`, including its dot; empty if none. */
  function ExtName(p: string): string
  {
    FromLastDot(DropLeadingDots(Basename(p)))
  }

  /** The base name is the slash-free tail of the path that follows its last slash. */
  lemma {:induction false} BasenameShape(p: string)
    ensures IsSuffix(Basename(p), p)
    ensures '/' !in Basename(p)
    ensures |Basename(p)| == |p| || p[|p| - |Basename(p)| - 1] == '/'
    decreases |p|
  {
    if p != [] && p[|p| - 1] != '/' {
      BasenameShape(p[..|p| - 1]);
      SuffixExtend(p, Basename(p[..|p| - 1]));
    }
  }

  lemma {:induction false} DropLeadingDotsShape(s: string)
    ensures IsSuffix(DropLeadingDots(s), s)
    ensures DropLeadingDots(s) == [] || DropLeadingDots(s)[0] != '.'
    ensures forall i :: 0 <= i < |s| - |DropLeadingDots(s)| ==> s[i] == '.'
    decreases |s|
  {
    if s != [] && s[0] == '.' {
      DropLeadingDotsShape(s[1..]);
      SuffixOfSuffix(s, s[1..], DropLeadingDots(s[1..]));
    } else {
      assert s[0..] == s;
    }
  }

  /** The result is empty exactly when there is no dot, and otherwise a dot followed by dot-free text. */
  lemma {:induction false} FromLastDotShape(s: string)
    ensures IsSuffix(FromLastDot(s), s)
    ensures FromLastDot(s) == [] <==> '.' !in s
    ensures FromLastDot(s) != [] ==> FromLastDot(s)[0] == '.' && '.' !in FromLastDot(s)[1..]
    decreases |s|
  {
    if s != [] && s[|s| - 1] != '.' {
      var init, last := s[..|s| - 1], s[|s| - 1];
      var front := FromLastDot(init);
      FromLastDotShape(init);
      assert s == init + [last];
      if front != [] {
        SuffixExtend(s, front);
        assert (front + [last])[1..] == front[1..] + [last];
      }
    }
  }

  /** The extension is a tail of the path, slash-free, and either empty or one dot and then no dot. */
  lemma ExtNameShape(p: string)
    ensures IsSuffix(ExtName(p), p)
    ensures ExtName(p) == [] || (ExtName(p)[0] == '.' && '.' !in ExtName(p)[1..])
    ensures '/' !in ExtName(p)
  {
    var base := Basename(p);
    var name := DropLeadingDots(base);
    var ext := FromLastDot(name);
    BasenameShape(p);
    DropLeadingDotsShape(base);
    FromLastDotShape(name);
    SuffixOfSuffix(base, name, ext);
    SuffixOfSuffix(p, base, ext);
    SuffixAvoids(base, ext, '/');
  }

  /** A suffix of all but the last character, extended by that character, is a suffix. */
  lemma SuffixExtend(s: string, t: string)
    requires s != [] && IsSuffix(t, s[..|s| - 1])
    ensures IsSuffix(t + [s[|s| - 1]], s)
  {
  }

  lemma SuffixOfSuffix(s: string, t: string, u: string)
    requires IsSuffix(t, s)
    requires IsSuffix(u, t)
    ensures IsSuffix(u, s)
  {
  }

  lemma SuffixAvoids(s: string, t: string, c: char)
    requires c !in s
    requires IsSuffix(t, s)
    ensures c !in t
  {
  }

  lemma {:induction false} BasenameOfSegment(dir: string, name: string)
    requires dir == [] || dir[|dir| - 1] == '/'
    requires '/' !in name
    ensures Basename(dir + name) == name
    decreases |name|
  {
    if name == [] {
      assert dir + name == dir;
    } else {
      var p := dir + name;
      var front := name[..|name| - 1];
      var last := name[|name| - 1];
      assert p[|p| - 1] == last && last != '/';
      assert p[..|p| - 1] == dir + front;
      assert forall i :: 0 <= i < |front| ==> front[i] == name[i];
      BasenameOfSegment(dir, front);
      assert Basename(p) == front + [last];
      assert front + [last] == name;
    }
  }

  lemma {:induction false} FromLastDotOfSuffix(stem: string, ext: string)
    requires '.' !in ext
    ensures FromLastDot(stem + "." + ext) == "." + ext
    decreases |ext|
  {
    var s := stem + "." + ext;
    if ext == [] {
      assert s[|s| - 1] == '.';
    } else {
      var front := ext[..|ext| - 1];
      assert s[..|s| - 1] == stem + "." + front;
      FromLastDotOfSuffix(stem, front);
      assert "." + front + [ext[|ext| - 1]] == "." + ext;
    }
  }

  /**
   * Characterisation: in a path whose last segment is a stem not starting
   * with a dot, then a dot, then a dot-free extension, `ExtName` is that dot
   * and extension.
   */
  lemma ExtNameOfFile(dir: string, stem: string, ext: string)
    requires dir == [] || dir[|dir| - 1] == '/'
    requires stem != [] && stem[0] != '.' && '/' !in stem
    requires '/' !in ext && '.' !in ext
    ensures ExtName(dir + stem + "." + ext) == "." + ext
  {
    var name := stem + "." + ext;
    assert '/' !in name by {
      forall i | 0 <= i < |name| ensures name[i] != '/' {
        if i < |stem| { assert name[i] == stem[i]; }
        else if i > |stem| { assert name[i] == ext[i - |stem| - 1]; }
      }
    }
    assert dir + stem + "." + ext == dir + name;
    BasenameOfSegment(dir, name);
    assert name[0] == stem[0];
    assert DropLeadingDots(name) == name;
    FromLastDotOfSuffix(stem, ext);
  }

  /** A last segment that is a dot and then dot-free text (a dotfile such as `.profile`) has no extension. */
  lemma ExtNameOfDotfile(dir: string, name: string)
    requires dir == [] || dir[|dir| - 1] == '/'
    requires '/' !in name && '.' !in name
    ensures ExtName(dir + "." + name) == ""
  {
    var seg := "." + name;
    assert '/' !in seg by {
      forall i | 0 <= i < |seg| ensures seg[i] != '/' {
        if i > 0 { assert seg[i] == name[i - 1]; }
      }
    }
    assert dir + "." + name == dir + seg;
    BasenameOfSegment(dir, seg);
    assert seg[1..] == name;
    assert DropLeadingDots(seg) == DropLeadingDots(name);
    DropLeadingDotsShape(name);
    SuffixAvoids(name, DropLeadingDots(name), '.');
    FromLastDotShape(DropLeadingDots(name));
  }

  /** A path without any dot in its last segment has no extension. */
  lemma ExtNameWithoutDot(dir: string, name: string)
    requires dir == [] || dir[|dir| - 1] == '/'
    requires '/' !in name && '.' !in name
    ensures ExtName(dir + name) == ""
  {
    BasenameOfSegment(dir, name);
    DropLeadingDotsShape(name);
    SuffixAvoids(name, DropLeadingDots(name), '.');
    FromLastDotShape(DropLeadingDots(name));
  }
}
