/** The parts of Go's `path/filepath` and `strings` packages that the handlers
    rely on, for the Unix separator '/': `filepath.Ext`, `filepath.Base`,
    `filepath.Join` of a clean directory and one element (with the cleaning
    of ".", ".." and "/") and `strings.ToLower` restricted to ASCII. */
module GoPath {

  const Separator: char := '/'

  /** The final path element: everything after the last separator. */
  function LastElement(path: string): (e: string)
    ensures |e| <= |path| && e == path[|path| - |e|..]
    ensures Separator !in e
    ensures |e| < |path| ==> path[|path| - |e| - 1] == Separator
  {
    if path == [] || path[|path| - 1] == Separator then ""
    else
      var p := path[..|path| - 1];
      var e := LastElement(p);
      assert path[|path| - |e| - 1..] == p[|p| - |e|..] + [path[|path| - 1]];
      e + [path[|path| - 1]]
  }

  lemma LastElementOfElement(name: string)
    requires Separator !in name
    ensures LastElement(name) == name
  {
  }

  /** The last element of `dir/name` is `name`. */
  lemma {:induction false} LastElementAfterSeparator(dir: string, name: string)
    requires Separator !in name
    ensures LastElement(dir + [Separator] + name) == name
  {
    if name != [] {
      var n' := name[..|name| - 1];
      assert (dir + [Separator] + name)[..|dir + [Separator] + name| - 1] == dir + [Separator] + n';
      assert name[|name| - 1] in name;
      LastElementAfterSeparator(dir, n');
    }
  }

  /** `filepath.Ext`: the suffix of the final element that starts at its last
      '.', or "" when the final element has no '.'. */
  function Ext(path: string): (ext: string)
    ensures |ext| <= |path| && ext == path[|path| - |ext|..]
    ensures ext == "" || ext[0] == '.'
  {
    if path == [] || path[|path| - 1] == Separator then ""
    else if path[|path| - 1] == '.' then "."
    else
      var p := path[..|path| - 1];
      var e := Ext(p);
      if e == "" then ""
      else
        assert path[|path| - |e| - 1..] == p[|p| - |e|..] + [path[|path| - 1]];
        e + [path[|path| - 1]]
  }

  /** Appending a character other than a separator extends the final
      element by it. */
  lemma LastElementSnoc(p: string, c: char)
    requires c != Separator
    ensures LastElement(p + [c]) == LastElement(p) + [c]
  {
    assert (p + [c])[..|p|] == p;
  }

  /** The extension lies inside the final element. */
  lemma {:induction false} ExtInLastElement(path: string)
    ensures |Ext(path)| <= |LastElement(path)|
    ensures Separator !in Ext(path)
  {
    if path != [] {
      var p, c := path[..|path| - 1], path[|path| - 1];
      assert path == p + [c];
      if c == Separator {
        ExtOfSpecialLast(p, c);
      } else if c == '.' {
        ExtOfSpecialLast(p, c);
        LastElementSnoc(p, c);
      } else {
        ExtInLastElement(p);
        ExtSnoc(p, c);
        LastElementSnoc(p, c);
      }
    }
  }

  /** A non-empty extension holds exactly one '.', its first character. */
  lemma {:induction false} ExtHasOneDot(path: string)
    ensures Ext(path) != "" ==> '.' !in Ext(path)[1..]
  {
    if path != [] {
      var p, c := path[..|path| - 1], path[|path| - 1];
      assert path == p + [c];
      if c == Separator || c == '.' {
        ExtOfSpecialLast(p, c);
      } else {
        ExtHasOneDot(p);
        ExtSnoc(p, c);
        var e := Ext(p);
        if e != "" {
          assert (e + [c])[1..] == e[1..] + [c];
        }
      }
    }
  }

  /** The extension is empty exactly when the final element has no '.'. */
  lemma {:induction false} ExtEmptyIffNoDot(path: string)
    ensures Ext(path) == "" <==> '.' !in LastElement(path)
  {
    if path != [] {
      var p, c := path[..|path| - 1], path[|path| - 1];
      assert path == p + [c];
      if c == Separator {
        ExtOfSpecialLast(p, c);
      } else if c == '.' {
        ExtOfSpecialLast(p, c);
        LastElementSnoc(p, c);
      } else {
        ExtEmptyIffNoDot(p);
        ExtSnoc(p, c);
        LastElementSnoc(p, c);
      }
    }
  }

  /** A name ending in `ext`, where `ext` is '.' followed by no further '.' or
      separator, has exactly `ext` as its extension, whatever comes before. */
  lemma {:induction false} ExtOfFinalSuffix(stem: string, ext: string)
    requires |ext| > 0 && ext[0] == '.' && '.' !in ext[1..] && Separator !in ext
    ensures Ext(stem + ext) == ext
  {
    if |ext| > 1 {
      var e' := ext[..|ext| - 1];
      assert '.' !in e'[1..] by { assert e'[1..] == ext[1..|ext| - 1]; }
      assert ext[|ext| - 1] in ext[1..];
      ExtOfFinalSuffix(stem, e');
      assert (stem + ext)[..|stem + ext| - 1] == stem + e';
    }
  }

  /** ASCII lower-casing of one character. */
  function LowerChar(c: char): (l: char)
    ensures ('A' <= c <= 'Z') ==> l as int == c as int + 32
    ensures !('A' <= c <= 'Z') ==> l == c
  {
    if 'A' <= c <= 'Z' then (c as int + 32) as char else c
  }

  /** `strings.ToLower`, restricted to ASCII letters. */
  function ToLower(s: string): (r: string)
    ensures |r| == |s|
    ensures forall i :: 0 <= i < |s| ==> r[i] == LowerChar(s[i])
  {
    seq(|s|, i requires 0 <= i < |s| => LowerChar(s[i]))
  }

  /** Lower-casing a sequence with one more character. */
  lemma ToLowerSnoc(p: string, c: char)
    ensures ToLower(p + [c]) == ToLower(p) + [LowerChar(c)]
  {
  }

  /** Appending an ordinary character extends a non-empty extension and
      leaves an empty one empty. */
  lemma ExtSnoc(p: string, c: char)
    requires c != Separator && c != '.'
    ensures Ext(p + [c]) == if Ext(p) == "" then "" else Ext(p) + [c]
  {
    assert (p + [c])[..|p|] == p;
  }

  /** A trailing separator ends the extension search with nothing; a
      trailing '.' is itself the extension. */
  lemma ExtOfSpecialLast(p: string, c: char)
    requires c == Separator || c == '.'
    ensures Ext(p + [c]) == if c == '.' then "." else ""
  {
    assert (p + [c])[|p|] == c;
  }

  /** One step of `ExtOfLower`: appending an ordinary character keeps the
      two orders equal. */
  lemma ExtOfLowerSnoc(p: string, c: char)
    requires c != Separator && c != '.'
    requires Ext(ToLower(p)) == ToLower(Ext(p))
    ensures Ext(ToLower(p + [c])) == ToLower(Ext(p + [c]))
  {
    ToLowerSnoc(p, c);
    ExtSnoc(p, c);
    ExtSnoc(ToLower(p), LowerChar(c));
    ToLowerSnoc(Ext(p), c);
  }

  /** The other step of `ExtOfLower`: after a trailing '.' or separator both
      orders give the same short extension. */
  lemma ExtOfLowerSpecial(p: string, c: char)
    requires c == Separator || c == '.'
    ensures Ext(ToLower(p + [c])) == ToLower(Ext(p + [c]))
  {
    ToLowerSnoc(p, c);
    assert LowerChar(c) == c;
    ExtOfSpecialLast(p, c);
    ExtOfSpecialLast(ToLower(p), c);
    assert ToLower(".") == "." && ToLower("") == "";
  }

  /** Lower-casing never creates or removes a '.' or a separator, so taking the
      extension and lower-casing can be done in either order. */
  lemma {:induction false} ExtOfLower(s: string)
    ensures Ext(ToLower(s)) == ToLower(Ext(s))
  {
    if s != [] {
      var p, c := s[..|s| - 1], s[|s| - 1];
      assert s == p + [c];
      if c == Separator || c == '.' {
        ExtOfLowerSpecial(p, c);
      } else {
        ExtOfLower(p);
        ExtOfLowerSnoc(p, c);
      }
    }
  }

  /** Removes every trailing separator. */
  function TrimTrailingSeparators(path: string): (t: string)
    ensures |t| <= |path| && t == path[..|t|]
    ensures t == [] || t[|t| - 1] != Separator
    ensures forall i :: |t| <= i < |path| ==> path[i] == Separator
  {
    if path != [] && path[|path| - 1] == Separator then TrimTrailingSeparators(path[..|path| - 1])
    else path
  }

  /** `filepath.Base`: "." for the empty path, "/" for a path made only of
      separators, otherwise the last element once trailing separators are
      dropped. */
  function Base(path: string): (b: string)
    ensures b != ""
    ensures b == "/" || Separator !in b
  {
    if path == "" then "."
    else
      var e := LastElement(TrimTrailingSeparators(path));
      if e == "" then "/" else e
  }

  /** A name that is already a single non-empty element is its own base, and
      `Base` therefore is idempotent. */
  lemma BaseOfElement(name: string)
    requires name != "" && Separator !in name
    ensures Base(name) == name
  {
    assert TrimTrailingSeparators(name) == name by {
      assert name[|name| - 1] in name;
    }
    LastElementOfElement(name);
  }

  lemma BaseIdempotent(path: string)
    ensures Base(Base(path)) == Base(path)
  {
    var b := Base(path);
    if b != "/" {
      BaseOfElement(b);
    } else {
      assert TrimTrailingSeparators(b) == "";
    }
  }

  /** A name that `Clean` leaves alone after a separator: non-empty, with no
      separator, and neither "." nor "..". */
  predicate IsPlainElement(name: string)
  {
    name != "" && Separator !in name && name != "." && name != ".."
  }

  /** `filepath.Join(dir, name)` for a clean `dir` and a `name` that is empty,
      a single element, or the separator (the names `Base` produces). `Join`
      cleans its result: an empty name, "." and "/" leave `dir` as it is,
      ".." steps up to `dir`'s parent, and a plain element joined onto "."
      loses the leading "./". */
  function Join(dir: string, name: string): (p: string)
    ensures dir == "" ==> p == name
    ensures dir == "." && IsPlainElement(name) ==> p == name
    ensures dir != "" && dir != "." && IsPlainElement(name) && dir[|dir| - 1] != Separator ==>
              p == dir + [Separator] + name
    ensures dir != "" && IsPlainElement(name) && dir[|dir| - 1] == Separator ==> p == dir + name
    ensures dir != "" && (name == "" || name == "." || name == [Separator]) ==> p == dir
    ensures dir != "" && name == ".." ==> p == Parent(dir)
  {
    if dir == "" then name
    else if name == "" || name == "." || name == [Separator] then dir
    else if name == ".." then Parent(dir)
    else if dir == "." then name
    else if dir[|dir| - 1] == Separator then dir + name
    else dir + [Separator] + name
  }

  /** `Clean(dir + "/..")` for a clean, non-empty `dir`: the last element is
      dropped; the root stays the root; a relative path runs out at "." and
      then climbs with "..". */
  function Parent(dir: string): string
  {
    if dir == [Separator] then dir
    else if dir == "." then ".."
    else if LastElement(dir) == ".." then dir + [Separator] + ".."
    else
      var prefix := dir[..|dir| - |LastElement(dir)|];
      if prefix == "" then "."
      else if prefix == [Separator] then prefix
      else prefix[..|prefix| - 1]
  }

  /** Joining ".." onto `dir/name` goes back to `dir`. */
  lemma ParentOfJoin(dir: string, name: string)
    requires dir != "" && dir[|dir| - 1] != Separator
    requires IsPlainElement(name)
    ensures Parent(Join(dir, name)) == dir
  {
    if dir == "." {
      LastElementOfElement(name);
      assert name[..0] == "";
    } else {
      var p := dir + [Separator] + name;
      LastElementAfterSeparator(dir, name);
      assert p[..|p| - |name|] == dir + [Separator];
    }
  }

  /** ".." names its own base, so a request for ".." reaches `Join` as "..". */
  lemma BaseOfDotDot()
    ensures Base("..") == ".."
  {
    BaseOfElement("..");
  }
}
