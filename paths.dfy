/**
 * The lexical part of Go's `path/filepath` on a Unix system, which the cache
 * and the workspace builder rely on: `strings.Split` and `strings.Join` on
 * '/', `Clean`, `Join`, `Dir` and `strings.HasPrefix`. No filesystem is
 * consulted: every function works on the text of a path alone.
 */
module FilePath {

  /** `strings.Split(s, "/")`: the components between slashes, never empty. */
  function Split(s: string): (r: seq<string>)
    ensures |r| >= 1
  {
    if s == [] then [""] else Prepend(s[0], Split(s[1..]))
  }

  /** The components of `[c] + s`, given those of `s`: a slash starts a new
    * first component, any other character extends it. */
  function Prepend(c: char, rest: seq<string>): (r: seq<string>)
    requires |rest| >= 1
    ensures |r| >= 1
  {
    if c == '/' then [""] + rest else [[c] + rest[0]] + rest[1..]
  }

  /** `strings.Join(segs, "/")`. */
  function JoinSegs(segs: seq<string>): string
  {
    if |segs| == 0 then ""
    else if |segs| == 1 then segs[0]
    else JoinSegs(segs[..|segs| - 1]) + "/" + segs[|segs| - 1]
  }

  /** One component of Clean's left-to-right scan over the stack `acc`:
    * empty and "." components vanish, ".." pops a real component, and a
    * ".." that cannot pop is dropped at the root and kept otherwise. */
  function Step(rooted: bool, acc: seq<string>, seg: string): seq<string>
  {
    if seg == "" || seg == "." then acc
    else if seg == ".." then
      if |acc| > 0 && acc[|acc| - 1] != ".." then acc[..|acc| - 1]
      else if rooted then acc
      else acc + [".."]
    else acc + [seg]
  }

  /** The stack Clean holds after scanning `segs`. */
  function Normalize(rooted: bool, segs: seq<string>): seq<string>
  {
    if |segs| == 0 then [] else Step(rooted, Normalize(rooted, segs[..|segs| - 1]), segs[|segs| - 1])
  }

  /** The text of Clean's final stack: a leading '/' for a rooted path,
    * "." for an empty relative one. */
  function Render(rooted: bool, segs: seq<string>): string
  {
    var body := JoinSegs(segs);
    if rooted then "/" + body else if body == "" then "." else body
  }

  /** `filepath.Clean`: the shortest lexically equivalent path; "." for the empty path. */
  function Clean(p: string): string
  {
    if p == "" then "." else Render(p[0] == '/', Normalize(p[0] == '/', Split(p)))
  }

  /** `filepath.Join`: the elements from the first non-empty one on, joined
    * by '/' and cleaned; "" when every element is empty. */
  function Join(elems: seq<string>): string
  {
    if |elems| == 0 then ""
    else if elems[0] != "" then Clean(JoinSegs(elems))
    else Join(elems[1..])
  }

  /** Index of the last '/' in `p`, or -1 when there is none. */
  function LastSlash(p: string): (i: int)
    ensures -1 <= i < |p|
    ensures i >= 0 ==> p[i] == '/'
    ensures forall j :: i < j < |p| ==> p[j] != '/'
  {
    if |p| == 0 then -1
    else if p[|p| - 1] == '/' then |p| - 1
    else LastSlash(p[..|p| - 1])
  }

  /** `filepath.Dir`: everything up to the last '/', cleaned. */
  function Dir(p: string): string
  {
    Clean(p[..LastSlash(p) + 1])
  }

  /** `strings.HasPrefix`. */
  predicate HasPrefix(s: string, prefix: string)
  {
    |prefix| <= |s| && s[..|prefix|] == prefix
  }

  /** The components of `p` extend those of `root` by at least one more:
    * `p` names something strictly below the directory `root`. */
  predicate StrictlyBelow(p: string, root: string)
  {
    var rs, ps := Split(root), Split(p);
    |rs| < |ps| && ps[..|rs|] == rs
  }

  ghost predicate NoSlash(segs: seq<string>)
  {
    forall i :: 0 <= i < |segs| ==> '/' !in segs[i]
  }

  /** The shape of Clean's stack: real components, with ".." only in a
    * leading run and never at the root. */
  ghost predicate NormalForm(rooted: bool, segs: seq<string>)
  {
    && NoSlash(segs)
    && (forall i :: 0 <= i < |segs| ==> segs[i] != "" && segs[i] != ".")
    && (forall i :: 0 <= i < |segs| && segs[i] == ".." ==> !rooted && forall j :: 0 <= j < i ==> segs[j] == "..")
  }

  // ---------------------------------------------------------------------
  // Split and JoinSegs

  lemma {:induction false} SplitNoSlash(w: string)
    requires '/' !in w
    ensures Split(w) == [w]
  {
    if w != [] {
      SplitNoSlash(w[1..]);
      assert [w[0]] + w[1..] == w;
    }
  }

  /** Splitting at a slash splits the two halves independently. */
  lemma {:induction false} SplitConcat(a: string, b: string)
    ensures Split(a + "/" + b) == Split(a) + Split(b)
  {
    if a == [] {
      assert a + "/" + b == "/" + b;
      assert ("/" + b)[1..] == b;
    } else {
      assert (a + "/" + b)[1..] == a[1..] + "/" + b;
      SplitConcat(a[1..], b);
    }
  }

  lemma {:induction false} SplitComponentsHaveNoSlash(s: string)
    ensures NoSlash(Split(s))
  {
    if s != [] {
      SplitComponentsHaveNoSlash(s[1..]);
    }
  }

  /** Joining and then splitting gives the components back. */
  lemma {:induction false} SplitJoinSegs(segs: seq<string>)
    requires |segs| >= 1 && NoSlash(segs)
    ensures Split(JoinSegs(segs)) == segs
  {
    if |segs| == 1 {
      SplitNoSlash(segs[0]);
    } else {
      var init, last := segs[..|segs| - 1], segs[|segs| - 1];
      SplitJoinSegs(init);
      SplitConcat(JoinSegs(init), last);
      SplitNoSlash(last);
      assert init + [last] == segs;
    }
  }

  lemma {:induction false} JoinSegsConcat(a: seq<string>, b: seq<string>)
    requires |a| >= 1 && |b| >= 1
    ensures JoinSegs(a + b) == JoinSegs(a) + "/" + JoinSegs(b)
    decreases |b|
  {
    if |b| == 1 {
      assert (a + b)[..|a + b| - 1] == a;
    } else {
      var init := b[..|b| - 1];
      assert (a + b)[..|a + b| - 1] == a + init;
      JoinSegsConcat(a, init);
    }
  }

  /** Splitting and then joining gives the string back. */
  lemma {:induction false} JoinSegsSplit(s: string)
    ensures JoinSegs(Split(s)) == s
  {
    if s != [] {
      JoinSegsSplit(s[1..]);
      JoinSegsPrepend(s[0], Split(s[1..]));
      assert [s[0]] + s[1..] == s;
    }
  }

  lemma JoinSegsPrepend(c: char, rest: seq<string>)
    requires |rest| >= 1
    ensures JoinSegs(Prepend(c, rest)) == [c] + JoinSegs(rest)
  {
    if c == '/' {
      JoinSegsAfterEmpty(rest);
    } else if |rest| > 1 {
      JoinSegsExtendFirst([c], rest);
    }
  }

  /** A leading empty component becomes a leading slash. */
  lemma JoinSegsAfterEmpty(rest: seq<string>)
    requires |rest| >= 1
    ensures JoinSegs([""] + rest) == "/" + JoinSegs(rest)
  {
    JoinSegsConcat([""], rest);
    assert JoinSegs([""]) == "";
  }

  /** Extending the first component extends the joined text at its front. */
  lemma JoinSegsExtendFirst(w: string, rest: seq<string>)
    requires |rest| > 1
    ensures JoinSegs([w + rest[0]] + rest[1..]) == w + JoinSegs(rest)
  {
    var x, tail := rest[0], rest[1..];
    assert rest == [x] + tail;
    JoinSegsCons(x, tail);
    JoinSegsCons(w + x, tail);
    SlashAssoc(w, x, JoinSegs(tail));
  }

  lemma SlashAssoc(w: string, x: string, j: string)
    ensures (w + x) + "/" + j == w + (x + "/" + j)
  {
    assert (w + x) + "/" + j == (w + x) + ("/" + j);
  }

  lemma JoinSegsCons(x: string, tail: seq<string>)
    requires |tail| >= 1
    ensures JoinSegs([x] + tail) == x + "/" + JoinSegs(tail)
  {
    JoinSegsConcat([x], tail);
  }

  lemma {:induction false} JoinSegsStartsWithFirst(segs: seq<string>)
    requires |segs| >= 1
    ensures HasPrefix(JoinSegs(segs), segs[0])
  {
    if |segs| > 1 {
      JoinSegsStartsWithFirst(segs[..|segs| - 1]);
    }
  }

  // ---------------------------------------------------------------------
  // Normalize

  lemma NormalizeAppend(rooted: bool, segs: seq<string>, seg: string)
    ensures Normalize(rooted, segs + [seg]) == Step(rooted, Normalize(rooted, segs), seg)
  {
    assert (segs + [seg])[..|segs|] == segs;
  }

  /** Clean's stack always has normal form. */
  lemma {:induction false} NormalizeIsNormal(rooted: bool, segs: seq<string>)
    requires NoSlash(segs)
    ensures NormalForm(rooted, Normalize(rooted, segs))
  {
    if |segs| > 0 {
      var init := segs[..|segs| - 1];
      NormalizeIsNormal(rooted, init);
      var acc := Normalize(rooted, init);
      var seg := segs[|segs| - 1];
      if seg == ".." && !(|acc| > 0 && acc[|acc| - 1] != "..") && !rooted {
        assert forall j :: 0 <= j < |acc| ==> acc[j] == "..";
      }
    }
  }

  /** Scanning a stack that already has normal form leaves it as it is,
    * after any prefix that scans to nothing. */
  lemma {:induction false} NormalizeOfNormal(rooted: bool, pre: seq<string>, segs: seq<string>)
    requires Normalize(rooted, pre) == []
    requires NormalForm(rooted, segs)
    ensures Normalize(rooted, pre + segs) == segs
    decreases |segs|
  {
    if |segs| == 0 {
      assert pre + segs == pre;
    } else {
      var init, last := segs[..|segs| - 1], segs[|segs| - 1];
      assert NormalForm(rooted, init);
      NormalizeOfNormal(rooted, pre, init);
      assert pre + segs == (pre + init) + [last];
      NormalizeAppend(rooted, pre + init, last);
      assert init + [last] == segs;
    }
  }

  lemma NormalizeDropsEmpty(rooted: bool, segs: seq<string>)
    ensures Normalize(rooted, segs + [""]) == Normalize(rooted, segs)
  {
    NormalizeAppend(rooted, segs, "");
  }

  // ---------------------------------------------------------------------
  // Clean, Join and Dir

  /** A rooted path cleans to a rooted path. */
  lemma CleanRooted(p: string)
    requires |p| > 0 && p[0] == '/'
    ensures |Clean(p)| > 0 && Clean(p)[0] == '/'
  {
  }

  lemma SplitAroundSlashes(j: string)
    ensures Split(j + "/") == Split(j) + [""]
    ensures Split("/" + j + "/") == [""] + Split(j) + [""]
  {
    assert j + "/" == j + "/" + "";
    SplitConcat(j, "");
    assert "/" + j + "/" == "" + "/" + (j + "/" + "");
    SplitConcat("", j + "/");
  }

  lemma NormalizeNormalWithEmpties(rooted: bool, n: seq<string>)
    requires NormalForm(rooted, n)
    ensures Normalize(rooted, n + [""]) == n
    ensures Normalize(rooted, [""] + n + [""]) == n
  {
    NormalizeOfNormal(rooted, [], n);
    assert [] + n == n;
    NormalizeDropsEmpty(rooted, n);
    assert Normalize(rooted, [""]) == [] by {
      assert [""][..0] == [];
    }
    NormalizeOfNormal(rooted, [""], n);
    NormalizeDropsEmpty(rooted, [""] + n);
  }

  /** Clean given a normal stack `n` rendered as text, followed by a slash,
    * gives that text again. */
  lemma CleanRootedWithSlash(n: seq<string>)
    requires NormalForm(true, n) && |n| >= 1
    ensures Clean("/" + JoinSegs(n) + "/") == "/" + JoinSegs(n)
  {
    var j := JoinSegs(n);
    var t := "/" + j + "/";
    assert t != "" && t[0] == '/';
    assert Split(t) == [""] + n + [""] by {
      SplitAroundSlashes(j);
      SplitJoinSegs(n);
    }
    assert Normalize(true, [""] + n + [""]) == n by {
      NormalizeNormalWithEmpties(true, n);
    }
  }

  lemma CleanRelativeWithSlash(n: seq<string>)
    requires NormalForm(false, n) && |n| >= 1
    ensures Clean(JoinSegs(n) + "/") == JoinSegs(n)
  {
    var j := JoinSegs(n);
    var t := j + "/";
    assert j != "" && j[0] != '/' by {
      JoinSegsStartsWithFirst(n);
      assert n[0] != "" && '/' !in n[0];
      assert j[0] == n[0][0];
    }
    assert t != "" && t[0] != '/';
    assert Split(t) == n + [""] by {
      SplitAroundSlashes(j);
      SplitJoinSegs(n);
    }
    assert Normalize(false, n + [""]) == n by {
      NormalizeNormalWithEmpties(false, n);
    }
  }

  lemma LastSlashNone(p: string)
    requires '/' !in p
    ensures LastSlash(p) == -1
  {
    assert forall j :: 0 <= j < |p| ==> p[j] != '/';
  }

  /** Cleaning `x/leaf` appends `leaf` to the stack of `x`. */
  lemma CleanAppendLeaf(x: string, leaf: string)
    requires x != "" && leaf != "" && leaf != "." && leaf != ".." && '/' !in leaf
    ensures Clean(x + "/" + leaf) == Render(x[0] == '/', Normalize(x[0] == '/', Split(x)) + [leaf])
  {
    var y := x + "/" + leaf;
    assert y[0] == x[0];
    SplitConcat(x, leaf);
    SplitNoSlash(leaf);
    NormalizeAppend(x[0] == '/', Split(x), leaf);
  }

  lemma DirOfRootedLeaf(leaf: string)
    requires leaf != "" && '/' !in leaf
    ensures Dir(Render(true, [leaf])) == Render(true, [])
  {
    var c := "/" + leaf;
    assert Render(true, [leaf]) == c;
    assert forall j :: 0 < j < |c| ==> c[j] == leaf[j - 1];
    LastSlashAt(c, 0);
    assert c[..1] == "/";
    assert Split("/") == ["", ""];
    assert Normalize(true, ["", ""]) == [] by {
      assert ["", ""][..1] == [""];
      assert [""][..0] == [];
    }
  }

  lemma DirOfRelativeLeaf(leaf: string)
    requires leaf != "" && '/' !in leaf
    ensures Dir(Render(false, [leaf])) == Render(false, [])
  {
    LastSlashNone(leaf);
    assert leaf[..0] == "";
  }

  lemma DirOfLongerRendered(rooted: bool, n: seq<string>, leaf: string)
    requires NormalForm(rooted, n) && n != []
    requires leaf != "" && '/' !in leaf
    ensures Dir(Render(rooted, n + [leaf])) == Render(rooted, n)
  {
    JoinSegsConcat(n, [leaf]);
    JoinSegsStartsWithFirst(n);
    assert JoinSegs(n) != "";
    var text := (if rooted then "/" else "") + JoinSegs(n);
    var c := text + "/" + leaf;
    assert Render(rooted, n + [leaf]) == c;
    assert Render(rooted, n) == text;
    assert forall j :: |text| < j < |c| ==> c[j] == leaf[j - |text| - 1];
    LastSlashAt(c, |text|);
    assert c[..|text| + 1] == text + "/";
    if rooted {
      CleanRootedWithSlash(n);
    } else {
      CleanRelativeWithSlash(n);
    }
  }

  /** The directory of a rendered stack with one more real component is the
    * rendered stack without it. */
  lemma DirOfRendered(rooted: bool, n: seq<string>, leaf: string)
    requires NormalForm(rooted, n)
    requires leaf != "" && '/' !in leaf
    ensures Dir(Render(rooted, n + [leaf])) == Render(rooted, n)
  {
    if n == [] {
      assert n + [leaf] == [leaf];
      if rooted {
        DirOfRootedLeaf(leaf);
      } else {
        DirOfRelativeLeaf(leaf);
      }
    } else {
      DirOfLongerRendered(rooted, n, leaf);
    }
  }

  /** The parent of `x/leaf`, for any non-empty `x`, is `x` cleaned. */
  lemma DirOfChild(x: string, leaf: string)
    requires x != "" && leaf != "" && leaf != "." && leaf != ".." && '/' !in leaf
    ensures Dir(Clean(x + "/" + leaf)) == Clean(x)
  {
    var rooted := x[0] == '/';
    CleanAppendLeaf(x, leaf);
    SplitComponentsHaveNoSlash(x);
    NormalizeIsNormal(rooted, Split(x));
    DirOfRendered(rooted, Normalize(rooted, Split(x)), leaf);
  }

  lemma LastSlashAt(p: string, i: int)
    requires 0 <= i < |p| && p[i] == '/'
    requires forall j :: i < j < |p| ==> p[j] != '/'
    ensures LastSlash(p) == i
  {
  }

  /** The string-prefix check with a trailing separator accepts exactly the
    * paths whose components strictly extend the root's. */
  lemma SeparatorPrefixIffBelow(p: string, root: string)
    ensures HasPrefix(p, root + "/") <==> StrictlyBelow(p, root)
  {
    var rs, ps := Split(root), Split(p);
    if HasPrefix(p, root + "/") {
      var suffix := p[|root| + 1..];
      assert p == root + "/" + suffix;
      SplitConcat(root, suffix);
    }
    if StrictlyBelow(p, root) {
      var rest := ps[|rs|..];
      assert ps == rs + rest;
      JoinSegsConcat(rs, rest);
      JoinSegsSplit(p);
      JoinSegsSplit(root);
      assert p == root + "/" + JoinSegs(rest);
    }
  }

  /** Joining the rooted directory with components `dir` and a relative
    * name with components `name` scans all of them as one rooted path. */
  lemma JoinRootedDirName(dir: seq<string>, name: seq<string>)
    requires |dir| >= 1 && |name| >= 1 && NoSlash(dir) && NoSlash(name)
    ensures Join(["/" + JoinSegs(dir), JoinSegs(name)]) == Render(true, Normalize(true, [""] + dir + name))
  {
    var root, n := "/" + JoinSegs(dir), JoinSegs(name);
    var all := [""] + dir + name;
    JoinSegsPair(root, n);
    JoinSegsRooted(dir, name);
    NoSlashRooted(dir, name);
    SplitJoinSegs(all);
  }

  lemma JoinSegsPair(x: string, y: string)
    ensures JoinSegs([x, y]) == x + "/" + y
  {
    assert [x, y][..1] == [x];
  }

  lemma JoinSegsRooted(dir: seq<string>, name: seq<string>)
    requires |dir| >= 1 && |name| >= 1
    ensures JoinSegs([""] + dir + name) == ("/" + JoinSegs(dir)) + "/" + JoinSegs(name)
    ensures JoinSegs([""] + dir + name)[0] == '/'
  {
    JoinSegsAfterEmpty(dir);
    JoinSegsConcat([""] + dir, name);
  }

  lemma NoSlashRooted(dir: seq<string>, name: seq<string>)
    requires NoSlash(dir) && NoSlash(name)
    ensures NoSlash([""] + dir + name)
  {
    var all := [""] + dir + name;
    assert forall i :: 0 < i < |all| ==> all[i] == (dir + name)[i - 1];
  }
  // ---------------------------------------------------------------------
  // Climbing out of a two-component directory

  /** A component Clean keeps as it is. */
  predicate Plain(w: string)
  {
    w != "" && w != "." && w != ".." && '/' !in w
  }

  lemma SplitRootedPair(a: string, b: string)
    requires '/' !in a && '/' !in b
    ensures Split("/" + a + "/" + b) == ["", a, b]
  {
    SplitNoSlash(a);
    SplitNoSlash(b);
    SplitConcat("", a);
    assert "" + "/" + a == "/" + a;
    SplitConcat("/" + a, b);
  }

  lemma RootedPairText(a: string, b: string)
    ensures "/" + a + "/" + b == "/" + JoinSegs([a, b])
  {
    JoinSegsPair(a, b);
    assert "/" + a + "/" + b == "/" + (a + "/" + b);
  }

  lemma NormalizeUpToSibling(a: string, b: string, c: string)
    requires Plain(a) && Plain(b) && Plain(c)
    ensures Normalize(true, [""] + [a, b] + ["..", c]) == [a, c]
  {
    NormalizeRootedPair(a, b);
    NormalizeAppend(true, ["", a, b], "..");
    NormalizeAppend(true, ["", a, b, ".."], c);
    assert ["", a, b] + [".."] == ["", a, b, ".."];
    assert [a, b][..1] == [a];
    assert [""] + [a, b] + ["..", c] == ["", a, b, ".."] + [c];
  }

  lemma NormalizeRootedPair(a: string, b: string)
    requires Plain(a) && Plain(b)
    ensures Normalize(true, ["", a, b]) == [a, b]
  {
    NormalizeAppend(true, [], "");
    NormalizeAppend(true, [""], a);
    NormalizeAppend(true, ["", a], b);
    assert [] + [""] == [""];
    assert [""] + [a] == ["", a];
    assert ["", a] + [b] == ["", a, b];
    assert [a] + [b] == [a, b];
  }

  /** From the directory /a/b, the name ../c joins to /a/c. */
  lemma JoinUpToSibling(a: string, b: string, c: string)
    requires Plain(a) && Plain(b) && Plain(c)
    ensures Join(["/" + a + "/" + b, "../" + c]) == "/" + a + "/" + c
  {
    RootedPairText(a, b);
    JoinSegsPair("..", c);
    assert "../" + c == ".." + "/" + c;
    JoinRootedDirName([a, b], ["..", c]);
    NormalizeUpToSibling(a, b, c);
    RootedPairText(a, c);
  }

  lemma NormalizeUpTwice(a: string, b: string, c: string, d: string)
    requires Plain(a) && Plain(b) && Plain(c) && Plain(d)
    ensures Normalize(true, [""] + [a, b] + ["..", "..", c, d]) == [c, d]
  {
    NormalizeRootedPair(a, b);
    NormalizeAppend(true, ["", a, b], "..");
    NormalizeAppend(true, ["", a, b, ".."], "..");
    NormalizeAppend(true, ["", a, b, "..", ".."], c);
    NormalizeAppend(true, ["", a, b, "..", "..", c], d);
    assert ["", a, b] + [".."] == ["", a, b, ".."];
    assert ["", a, b, ".."] + [".."] == ["", a, b, "..", ".."];
    assert ["", a, b, "..", ".."] + [c] == ["", a, b, "..", "..", c];
    assert [a, b][..1] == [a];
    assert [a][..0] == [];
    assert [] + [c] == [c];
    assert [c] + [d] == [c, d];
    assert [""] + [a, b] + ["..", "..", c, d] == ["", a, b, "..", "..", c] + [d];
  }

  lemma UpTwiceText(c: string, d: string)
    ensures "../../" + c + "/" + d == JoinSegs(["..", "..", c, d])
  {
    assert ["..", "..", c, d][..3] == ["..", "..", c];
    assert ["..", "..", c][..2] == ["..", ".."];
    JoinSegsPair("..", "..");
    assert "../../" + c + "/" + d == ".." + "/" + ".." + "/" + c + "/" + d;
  }

  /** From the directory /a/b, the name ../../c/d joins to /c/d. */
  lemma JoinUpTwice(a: string, b: string, c: string, d: string)
    requires Plain(a) && Plain(b) && Plain(c) && Plain(d)
    ensures Join(["/" + a + "/" + b, "../../" + c + "/" + d]) == "/" + c + "/" + d
  {
    RootedPairText(a, b);
    UpTwiceText(c, d);
    JoinRootedDirName([a, b], ["..", "..", c, d]);
    NormalizeUpTwice(a, b, c, d);
    RootedPairText(c, d);
  }
}
