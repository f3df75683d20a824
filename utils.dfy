/** Path construction (`create_path`) and the `HashMap::get` lookup the handlers use. */
module Utils {
  import opened Wrappers

  /** A file-system path as its sequence of components; `PathBuf::from(dir)` is one component. */
  type Path = seq<string>

  /** Files on disk: path to full content. A path absent from the map names no file. */
  type Files = map<Path, string>

  const WORKING_FOLDER_ERROR := "An error occurred while accessing the working folder."

  /**
   * `PathBuf::push` of a relative component onto the text of a path: a `/`
   * goes in between unless the text is empty or already ends in `/`.
   */
  function Push(text: string, component: string): (r: string)
    ensures |r| == |text| + |component| + (if text == [] || text[|text| - 1] == '/' then 0 else 1)
    ensures text <= r && r[|r| - |component|..] == component
    ensures |r| == |text| + |component| + 1 ==> r[|text|] == '/'
  {
    if text == [] || text[|text| - 1] == '/' then text + component else text + "/" + component
  }

  /** `path.display()`: the text the components make when pushed one by one. */
  function Display(p: Path): (r: string)
    ensures p == [] ==> r == []
    ensures p != [] ==> |p[|p| - 1]| <= |r| && r[|r| - |p[|p| - 1]|..] == p[|p| - 1]
  {
    if p == [] then "" else
      var init := p[..|p| - 1];
      Push(Display(init), p[|p| - 1])
  }

  /** Pushing never rewrites what is already there: a path's text starts with its parent's text. */
  lemma DisplayExtends(p: Path)
    requires p != []
    ensures Display(p[..|p| - 1]) <= Display(p)
  {
  }

  /** A directory written with a trailing `/` displays the same paths as without it. */
  lemma DisplayTrailingSeparator(dir: string, fileName: string)
    requires dir != [] && dir[|dir| - 1] != '/'
    ensures Display([dir + "/", fileName]) == Display([dir, fileName]) == dir + "/" + fileName
  {
    assert [dir + "/", fileName][..1] == [dir + "/"];
    assert [dir, fileName][..1] == [dir];
    assert [dir + "/"][..0] == [] && [dir][..0] == [];
  }

  /** An empty directory adds nothing: the path displays as the file name alone. */
  lemma DisplayEmptyBase(fileName: string)
    ensures Display(["", fileName]) == fileName
  {
    assert ["", fileName][..1] == [""];
    assert [""][..0] == [];
  }

  /**
   * `create_path(file_name, dir)`: the base is `dir` when given, otherwise the
   * working directory `cwd` (None when `env::current_dir` fails); then
   * `file_name` is pushed as one more component.
   */
  function CreatePath(fileName: string, dir: Option<string>, cwd: Option<Path>): (r: Result<Path>)
    ensures dir.Some? ==> r == Ok([dir.value, fileName])
    ensures dir.None? && cwd.None? ==> r == Err(WORKING_FOLDER_ERROR)
    ensures dir.None? && cwd.Some? ==>
      r.Ok? && |r.value| == |cwd.value| + 1 && r.value[..|cwd.value|] == cwd.value && r.value[|cwd.value|] == fileName
  {
    if dir.Some? then Ok([dir.value, fileName])
    else if cwd.Some? then Ok(cwd.value + [fileName])
    else Err(WORKING_FOLDER_ERROR)
  }

  /** With an explicit directory the working directory is never consulted. */
  lemma CreatePathIgnoresCwd(fileName: string, dir: string, cwd1: Option<Path>, cwd2: Option<Path>)
    ensures CreatePath(fileName, Some(dir), cwd1) == CreatePath(fileName, Some(dir), cwd2)
  {
  }

  /** `optional_args.get(key)`. */
  function Lookup(m: map<string, string>, key: string): (r: Option<string>)
    ensures r.Some? <==> key in m
    ensures r.Some? ==> r.value == m[key]
  {
    if key in m then Some(m[key]) else None
  }
}
