/** Output file names are built from the input paths with their extension removed (script.py:30-34). */
module FileNames {
  import opened Text

  /**
   * `removeExtension`: split the whole path on '.', and when there was at
   * least one '.', drop the last piece and join the rest with '.'.
   */
  function RemoveExtension(filename: string): string {
    var parts := Split(filename, '.');
    if |parts| == 1 then filename
    else Join(parts[..|parts| - 1], '.')
  }

  /** A path without '.' is returned unchanged. */
  lemma RemoveExtensionNoDot(filename: string)
    requires '.' !in filename
    ensures RemoveExtension(filename) == filename
  {
    SplitFree(filename, '.');
  }

  /** A path with a '.' loses exactly its last '.' and everything after it. */
  lemma RemoveExtensionLastDot(filename: string)
    requires '.' in filename
    ensures var r := RemoveExtension(filename);
      && |r| < |filename|
      && filename[..|r|] == r
      && filename[|r|] == '.'
      && '.' !in filename[|r| + 1..]
  {
    var parts := Split(filename, '.');
    var n := |parts|;
    SplitPieces(filename, '.');
    assert n > 1 by {
      assert '.' in multiset(filename);
    }
    var r, last := Join(parts[..n - 1], '.'), parts[n - 1];
    assert filename == r + ['.'] + last by {
      JoinSplit(filename, '.');
      JoinLast(parts, '.');
    }
    assert RemoveExtension(filename) == r;
    DotSplit(filename, r, last);
  }

  lemma DotSplit(s: string, r: string, last: string)
    requires s == r + ['.'] + last && '.' !in last
    ensures |r| < |s| && s[..|r|] == r && s[|r|] == '.' && '.' !in s[|r| + 1..]
  {
    assert s[|r| + 1..] == last;
  }

  /**
   * Appending an extension and removing it again is the identity: for any
   * stem, and any extension without '.', the stem comes back.
   */
  lemma RemoveAppendedExtension(stem: string, ext: string)
    requires '.' !in ext
    ensures RemoveExtension(stem + ['.'] + ext) == stem
  {
    var s := stem + ['.'] + ext;
    assert s[|stem|] == '.';
    RemoveExtensionLastDot(s);
  }

  /** Only the last extension goes, and every earlier '.' stays (script.py:31-34). */
  lemma RemoveExtensionKeepsEarlierDots()
    ensures RemoveExtension("a.b.csv") == "a.b"
  {
    RemoveAppendedExtension("a.b", "csv");
    assert "a.b" + ['.'] + "csv" == "a.b.csv";
  }

  /** A name that starts with its only '.' becomes empty (script.py:31-34). */
  lemma RemoveExtensionDotFile()
    ensures RemoveExtension(".hidden") == ""
  {
    RemoveAppendedExtension("", "hidden");
    assert "" + ['.'] + "hidden" == ".hidden";
  }

  /**
   * The whole path is split, not its last component: in "d.x/f" the '.' of the
   * directory is taken for the extension and the result is "d" (script.py:113, 121).
   */
  lemma RemoveExtensionWholePath()
    ensures RemoveExtension("d.x/f") == "d"
  {
    RemoveAppendedExtension("d", "x/f");
    assert "d" + ['.'] + "x/f" == "d.x/f";
  }
}
