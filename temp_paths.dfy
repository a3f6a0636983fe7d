/** Names of the temporary directories and files the main-process services
    create. `fs.mkdtemp(prefix)` appends a random suffix, which the model
    takes as a parameter; `path.join` is modelled as joining with '/'
    (no normalisation of `.`/`..` segments). */
module TempPaths {
  import opened Strings

  /** `path.join(dir, name)` for a plain file name. */
  function PathJoin(dir: string, name: string): (r: string)
    ensures StartsWith(r, dir) && EndsWith(r, name) && |r| == |dir| + 1 + |name|
    ensures r[|dir|] == '/'
  {
    dir + "/" + name
  }

  /** Within one directory, distinct names give distinct paths. */
  lemma PathJoinInjective(dir: string, a: string, b: string)
    ensures PathJoin(dir, a) == PathJoin(dir, b) ==> a == b
  {
    if PathJoin(dir, a) == PathJoin(dir, b) {
      assert a == PathJoin(dir, a)[|dir| + 1..];
      assert b == PathJoin(dir, b)[|dir| + 1..];
    }
  }

  /** The directory `fs.mkdtemp(path.join(tempRoot, prefix))` creates. */
  function MkdtempPath(tempRoot: string, prefix: string, randomSuffix: string): (r: string)
    ensures StartsWith(r, tempRoot + "/" + prefix)
  {
    PathJoin(tempRoot, prefix + randomSuffix)
  }

  const ImageConvertPrefix := "toolsx-imgc-"
  const ImageCropPrefix := "toolsx-crop-"
  const SvgPrefix := "toolsx-svg-"
  const VideoToGifPrefix := "toolsx-v2g-"
  const PdfPrefix := "toolsx-pdf-"
}
