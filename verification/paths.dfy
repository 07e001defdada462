/** The default Markdown template directory of `to_md`
    (graphdoc/render.py, lines 61-64): the module's own file path with its
    last component replaced by "md_templates". */
module Paths {
  import opened Strings

  /** Python's `os.sep`: '/' on POSIX systems, '\\' on Windows. */
  type Separator = c: char | c == '/' || c == '\\' witness '/'

  /** The name given to the last path component. */
  const MdTemplatesDir := "md_templates"

  lemma MdTemplatesDirLacksSeparator(sep: Separator)
    ensures sep !in MdTemplatesDir
  {
  }

  /** Everything up to and including the last separator of `path` (empty
      when there is none): the directory that holds the path's last
      component. */
  function DirPrefix(path: string, sep: char): (dir: string)
    ensures |dir| <= |path| && dir == path[..|dir|]
    ensures |dir| == 0 || dir[|dir| - 1] == sep
    ensures sep !in path[|dir|..]
    decreases |path|
  {
    if |path| == 0 then []
    else if path[|path| - 1] == sep then path
    else
      var dir := DirPrefix(path[..|path| - 1], sep);
      assert path[|dir|..] == path[..|path| - 1][|dir|..] + [path[|path| - 1]];
      dir
  }

  /** A trailing component without a separator does not move the directory. */
  lemma {:induction false} DirPrefixSkipsComponent(p: string, q: string, sep: char)
    requires sep !in q
    ensures DirPrefix(p + q, sep) == DirPrefix(p, sep)
    decreases |q|
  {
    if |q| > 0 {
      var s := p + q;
      assert s[|s| - 1] == q[|q| - 1];
      assert s[..|s| - 1] == p + q[..|q| - 1];
      DirPrefixSkipsComponent(p, q[..|q| - 1], sep);
    } else {
      assert p + q == p;
    }
  }

  /** `path.split(sep)`, last element replaced by "md_templates", joined
      again with `sep`. */
  function DefaultMdTemplatesPath(moduleFile: string, sep: Separator): (path: string)
    ensures Split(path, [sep]) == AllButLast(Split(moduleFile, [sep])) + [MdTemplatesDir]
    ensures path == DirPrefix(moduleFile, sep) + MdTemplatesDir
  {
    var parts := Split(moduleFile, [sep]);
    var replaced := AllButLast(parts) + [MdTemplatesDir];
    SiblingComponents(moduleFile, sep);
    SiblingPath(moduleFile, sep);
    Join(replaced, [sep])
  }

  /** All but the last element of a non-empty list. */
  function AllButLast<T>(xs: seq<T>): (ys: seq<T>)
    requires |xs| >= 1
    ensures ys + [xs[|xs| - 1]] == xs
  {
    xs[..|xs| - 1]
  }

  /** The derived path has the module path's components except the last,
      which is "md_templates". */
  lemma SiblingComponents(moduleFile: string, sep: Separator)
    ensures var parts := Split(moduleFile, [sep]);
            Split(Join(AllButLast(parts) + [MdTemplatesDir], [sep]), [sep])
              == AllButLast(parts) + [MdTemplatesDir]
  {
    var parts := Split(moduleFile, [sep]);
    var replaced := AllButLast(parts) + [MdTemplatesDir];
    SplitPiecesLackSeparator<char>(moduleFile, sep);
    MdTemplatesDirLacksSeparator(sep);
    assert forall k :: 0 <= k < |replaced| ==> sep !in replaced[k] by {
      forall k | 0 <= k < |replaced|
        ensures sep !in replaced[k]
      {
        if k < |parts| - 1 {
          assert replaced[k] == parts[k];
        }
      }
    }
    SplitJoin<char>(replaced, sep);
  }

  /** The derived path is the module's directory followed by
      "md_templates". */
  lemma SiblingPath(moduleFile: string, sep: Separator)
    ensures var parts := Split(moduleFile, [sep]);
            Join(AllButLast(parts) + [MdTemplatesDir], [sep])
              == DirPrefix(moduleFile, sep) + MdTemplatesDir
  {
    var parts := Split(moduleFile, [sep]);
    var front := AllButLast(parts);
    var last := parts[|parts| - 1];
    SplitPiecesLackSeparator<char>(moduleFile, sep);
    JoinSplit(moduleFile, [sep]);
    assert sep !in last;
    if |parts| == 1 {
      assert Join(front + [MdTemplatesDir], [sep]) == MdTemplatesDir;
      DirPrefixSkipsComponent([], moduleFile, sep);
      assert [] + moduleFile == moduleFile;
    } else {
      JoinSnoc(front, MdTemplatesDir, [sep]);
      JoinSnoc(front, last, [sep]);
      var dir := Join(front, [sep]) + [sep];
      assert moduleFile == dir + last;
      DirPrefixSkipsComponent(dir, last, sep);
      assert DirPrefix(dir, sep) == dir;
    }
  }
}
