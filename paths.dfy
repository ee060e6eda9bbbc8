/**
 * The two path manipulations the program relies on: `filepath.Join` of a
 * directory and one element, and `strings.TrimSuffix(p, "/")`.
 */
module Paths {

  /**
   * `filepath.Join(dir, elem)` for an element without separators or dot
   * segments, as every call of the program has: an empty element leaves
   * the directory, an empty or "." directory leaves the element, and
   * otherwise one separator joins them.  Go also cleans the result; here
   * the directory is taken as it is, so the two agree only on a clean
   * directory.
   */
  function Join(dir: string, elem: string): string {
    if elem == "" then dir
    else if dir == "" || dir == "." then elem
    else dir + "/" + elem
  }

  /** Where the parts of a join sit: the element last, after the directory and one separator. */
  lemma JoinLayout(dir: string, elem: string)
    ensures var r := Join(dir, elem);
            && (elem != "" ==> |r| >= |elem| && r[|r| - |elem|..] == elem)
            && (elem != "" && dir != "" && dir != "." ==> |r| == |dir| + 1 + |elem| && r[..|dir|] == dir && r[|dir|] == '/')
            && (elem != "" && (dir == "" || dir == ".") ==> r == elem)
            && (elem == "" ==> r == dir)
  {
  }

  /** `p` is `root` itself or lies below it. */
  predicate Under(p: string, root: string) {
    p == root || (|root| + 1 <= |p| && p[..|root| + 1] == root + "/")
  }

  lemma JoinIsUnder(dir: string, elem: string)
    requires dir != "" && dir != "."
    ensures Under(Join(dir, elem), dir)
  {
    if elem != "" {
      assert (dir + "/" + elem)[..|dir| + 1] == dir + "/";
    }
  }

  /** Lying below is transitive. */
  lemma UnderTransitive(p: string, q: string, root: string)
    requires Under(p, q) && Under(q, root)
    ensures Under(p, root)
  {
    if p != q && q != root {
      assert p[..|q| + 1] == q + "/";
      assert p[..|root| + 1] == p[..|q| + 1][..|root| + 1];
      assert (q + "/")[..|root| + 1] == q[..|root| + 1];
    }
  }

  /**
   * `strings.TrimSuffix(s, "/")`: removes one trailing separator, if there
   * is one, and nothing else.
   */
  function TrimTrailingSlash(s: string): (r: string)
    ensures |s| > 0 && s[|s| - 1] == '/' ==> r + "/" == s
    ensures !(|s| > 0 && s[|s| - 1] == '/') ==> r == s
  {
    if |s| > 0 && s[|s| - 1] == '/' then s[..|s| - 1] else s
  }

  /** At most one separator goes: a path ending in "//" keeps one. */
  lemma TrimRemovesAtMostOne(s: string)
    requires |s| >= 2 && s[|s| - 1] == '/' && s[|s| - 2] == '/'
    ensures |TrimTrailingSlash(s)| == |s| - 1
    ensures TrimTrailingSlash(s)[|s| - 2] == '/'
  {
  }
}
