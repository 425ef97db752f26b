/** Unix paths as Rust's `std::path` sees them. A path is a string; its meaning
    for comparison is its list of components: a leading `/` is the root, `.` is
    kept only at the very start of a relative path, empty segments (repeated or
    trailing separators) and inner `.` segments vanish. `Path == Path` and
    `Path::starts_with` compare these component lists. */
module Paths {
  import opened Common

  datatype Component = RootDir | CurDir | ParentDir | Normal(name: Str)

  /** `Path::is_absolute` on Unix: the path has a root. */
  predicate IsAbsolute(p: Str) {
    |p| > 0 && p[0] == '/'
  }

  /** The segments between separators, empty ones included; never empty. */
  function Segments(s: Str): (r: seq<Str>)
    ensures |r| >= 1
  {
    if s == [] then [[]]
    else
      var rest := Segments(s[1..]);
      if s[0] == '/' then [[]] + rest
      else [[s[0]] + rest[0]] + rest[1..]
  }

  /** The component a segment contributes after the start of a path. */
  function SegmentComponent(seg: Str): seq<Component> {
    if seg == "" || seg == "." then []
    else if seg == ".." then [ParentDir]
    else [Normal(seg)]
  }

  function Normals(segs: seq<Str>): seq<Component> {
    if segs == [] then [] else SegmentComponent(segs[0]) + Normals(segs[1..])
  }

  /** `Path::components`. */
  function Components(p: Str): seq<Component> {
    var segs := Segments(p);
    if IsAbsolute(p) then [RootDir] + Normals(segs[1..])
    else if segs[0] == "." then [CurDir] + Normals(segs[1..])
    else Normals(segs)
  }

  /** `Path::join` (through `PathBuf::push`): an absolute argument replaces the
      base; otherwise a separator is inserted unless the base is empty or already
      ends with one. */
  function Join(base: Str, p: Str): (r: Str)
    ensures IsAbsolute(p) ==> r == p
    ensures !IsAbsolute(p) ==> IsPrefix(base, r) && |p| <= |r| && r[|r| - |p|..] == p
  {
    if IsAbsolute(p) then p
    else if base == [] || base[|base| - 1] == '/' then base + p
    else base + "/" + p
  }

  predicate IsPrefix<T(==)>(a: seq<T>, b: seq<T>) {
    |a| <= |b| && b[..|a|] == a
  }

  /** `Path == Path`: equal component lists. */
  predicate SamePath(a: Str, b: Str) {
    Components(a) == Components(b)
  }

  /** `path.starts_with(base)`: whole components only. */
  predicate StartsWith(path: Str, base: Str) {
    IsPrefix(Components(base), Components(path))
  }

  lemma {:induction false} SegmentsAroundSeparator(a: Str, b: Str)
    ensures Segments(a + "/" + b) == Segments(a) + Segments(b)
  {
    if a == [] {
      assert a + "/" + b == "/" + b;
      assert ("/" + b)[1..] == b;
    } else {
      assert (a + "/" + b)[1..] == a[1..] + "/" + b;
      SegmentsAroundSeparator(a[1..], b);
    }
  }

  lemma {:induction false} NormalsAppend(x: seq<Str>, y: seq<Str>)
    ensures Normals(x + y) == Normals(x) + Normals(y)
  {
    if x != [] {
      assert (x + y)[1..] == x[1..] + y;
      NormalsAppend(x[1..], y);
    } else {
      assert x + y == y;
    }
  }

  /** Appending whole segments to a path appends their components. */
  lemma ComponentsAppend(a: Str, s: Str, tail: seq<Str>)
    requires Segments(s) == Segments(a) + tail
    requires IsAbsolute(s) == IsAbsolute(a)
    ensures Components(s) == Components(a) + Normals(tail)
  {
    var sa := Segments(a);
    assert Segments(s)[0] == sa[0];
    assert Segments(s)[1..] == sa[1..] + tail;
    NormalsAppend(sa[1..], tail);
    NormalsAppend(sa, tail);
  }

  /** A relative path joined onto a base lies under that base, component-wise. */
  lemma JoinStartsWithBase(base: Str, p: Str)
    requires !IsAbsolute(p)
    ensures StartsWith(Join(base, p), base)
  {
    if base == [] {
    } else if base == "/" {
      var j := Join(base, p);
      assert j == "/" + p;
      assert Segments(j) == [[]] + Segments(p);
      assert Segments(base) == ["", ""];
      assert Normals([""]) == [];
      assert Components(base) == [RootDir];
    } else if base[|base| - 1] == '/' {
      var a := base[..|base| - 1];
      assert base == a + "/" + "";
      assert Join(base, p) == a + "/" + p;
      SegmentsAroundSeparator(a, "");
      SegmentsAroundSeparator(a, p);
      assert Segments("") == [""];
      assert a != [] && a[0] == base[0];
      ComponentsAppend(a, base, [""]);
      ComponentsAppend(a, Join(base, p), Segments(p));
      assert Normals([""]) == [];
    } else {
      SegmentsAroundSeparator(base, p);
      ComponentsAppend(base, Join(base, p), Segments(p));
    }
  }

  lemma {:induction false} SegmentsWithoutSeparator(a: Str)
    requires '/' !in a
    ensures Segments(a) == [a]
  {
    if a != [] {
      assert a[0] in a;
      assert forall k | 0 <= k < |a[1..]| :: a[1..][k] == a[k + 1];
      SegmentsWithoutSeparator(a[1..]);
      assert [a[0]] + a[1..] == a;
    }
  }

  /** The components of `/d1/d2/.../dn` with separator-free, non-dot names. */
  lemma {:induction false} ComponentsOfPlainAbsolute(names: seq<Str>, p: Str)
    requires forall k | 0 <= k < |names| :: '/' !in names[k] && names[k] != "" && names[k] != "." && names[k] != ".."
    requires names != [] && p == Render(names)
    ensures Components(p) == [RootDir] + NormalsOf(names)
  {
    RenderSegments(names);
    assert Segments(p)[1..] == names;
    NormalsOfPlain(names);
  }

  function Render(names: seq<Str>): Str {
    if names == [] then [] else Render(names[..|names| - 1]) + "/" + names[|names| - 1]
  }

  function NormalsOf(names: seq<Str>): seq<Component> {
    seq(|names|, k requires 0 <= k < |names| => Normal(names[k]))
  }

  lemma {:induction false} RenderSegments(names: seq<Str>)
    requires forall k | 0 <= k < |names| :: '/' !in names[k]
    ensures Segments(Render(names)) == [""] + names
    ensures names != [] ==> IsAbsolute(Render(names))
  {
    if names == [] {
    } else {
      var init := names[..|names| - 1];
      var last := names[|names| - 1];
      RenderSegments(init);
      SegmentsAroundSeparator(Render(init), last);
      SegmentsWithoutSeparator(last);
      assert [""] + init + [last] == [""] + names;
    }
  }

  lemma {:induction false} NormalsOfPlain(names: seq<Str>)
    requires forall k | 0 <= k < |names| :: names[k] != "" && names[k] != "." && names[k] != ".."
    ensures Normals(names) == NormalsOf(names)
  {
    if names != [] {
      NormalsOfPlain(names[1..]);
    }
  }

  /** Component-wise, not character-wise: `/ws/ab.slice` is not under `/ws/a`,
      while `/ws/a/b.slice` is. */
  lemma StartsWithIsComponentWise(dir: Str, inside: Str, beside: Str)
    requires dir == "/ws/a" && inside == "/ws/a/b.slice" && beside == "/ws/ab.slice"
    ensures StartsWith(inside, dir)
    ensures !StartsWith(beside, dir)
  {
    var wsA, wsAB, wsAb := ["ws", "a"], ["ws", "a", "b.slice"], ["ws", "ab.slice"];
    assert Render(["ws"]) == "/ws" by { assert ["ws"][..0] == []; }
    assert Render(wsA) == dir by { assert wsA[..1] == ["ws"]; }
    assert Render(wsAB) == inside by { assert wsAB[..2] == wsA; }
    assert Render(wsAb) == beside by { assert wsAb[..1] == ["ws"]; }
    ComponentsOfPlainAbsolute(wsA, dir);
    ComponentsOfPlainAbsolute(wsAB, inside);
    ComponentsOfPlainAbsolute(wsAb, beside);
    assert NormalsOf(wsAB)[..2] == NormalsOf(wsA);
    assert Components(beside)[2] == Normal("ab.slice") != Normal("a") == Components(dir)[2];
  }
}
