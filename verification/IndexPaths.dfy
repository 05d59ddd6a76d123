/** Index paths: where an index of a directory lives in the namespace, and how to take such a path apart. */
module IndexPaths {
  import opened Base
  import opened Paths

  const VSFS := "/.vsfs/"

  predicate OccursAt(s: string, t: string, i: nat) { i + |t| <= |s| && s[i..i + |t|] == t }

  /** `string::find`: the first occurrence, or the length when there is none. */
  function Find(s: string, t: string, from: nat): (r: nat)
    requires from <= |s|
    ensures from <= r <= |s|
    ensures r < |s| ==> OccursAt(s, t, r)
    ensures forall i :: from <= i < r ==> !OccursAt(s, t, i)
    decreases |s| - from
  {
    if from == |s| || OccursAt(s, t, from) then from else Find(s, t, from + 1)
  }

  function IndexPath(root: string, name: string): string { Join(Join(root, ".vsfs"), name) }

  /** `split_index_path`: fails without the marker, and without a name behind it. */
  function SplitIndexPath(path: string): Option<(string, string)> {
    var pos := Find(path, VSFS, 0);
    if pos == |path| || |path| <= pos + |VSFS| then None
    else Some((if pos == 0 then "/" else path[..pos], path[pos + |VSFS|..]))
  }

  /** One of the components of the path is `.vsfs`. */
  ghost predicate HasVsfsComponent(root: string) { exists i: nat :: OccursAt(root + "/", VSFS, i) }

  /** The text before the marker in the path of an index. */
  function Stem(root: string): string { if root == "/" then "" else root }

  lemma IndexPathText(root: string, name: string)
    requires Normal(root) && name != "" && name[0] != '/'
    ensures IndexPath(root, name) == Stem(root) + VSFS + name && VSFS == "/.vsfs/"
  {
    var inner := Join(root, ".vsfs");
    assert inner == Stem(root) + "/.vsfs";
    assert inner[|inner|-1] == 's';
    assert Join(inner, name) == inner + "/" + name;
    assert "/.vsfs" + "/" == VSFS;
  }

  /** The slashes of the marker are its first and last character only. */
  lemma MarkerSlashes(j: nat)
    requires j < |VSFS| && VSFS[j] == '/'
    ensures j == 0 || j == 6
  {
    assert VSFS[1] == '.' && VSFS[2] == 'v' && VSFS[3] == 's' && VSFS[4] == 'f' && VSFS[5] == 's';
  }

  /** An occurrence of the marker before the one that was put in is a component of the directory. */
  lemma EarlierMarker(stem: string, name: string, i: nat)
    requires i < |stem|
    ensures OccursAt(stem + VSFS + name, VSFS, i) <==> OccursAt(stem + "/", VSFS, i)
  {
    var s, d := stem + VSFS + name, stem + "/";
    assert s[|stem|] == '/' && d[|stem|] == '/';
    if OccursAt(s, VSFS, i) {
      if |stem| < i + |VSFS| {
        assert s[i..i + |VSFS|][|stem| - i] == s[|stem|];
        MarkerSlashes(|stem| - i);
      }
      assert s[i..i + |VSFS|] == d[i..i + |VSFS|];
    } else if i + |VSFS| <= |d| {
      assert s[i..i + |VSFS|] == d[i..i + |VSFS|];
    }
  }

  lemma MarkerIsThere(stem: string, name: string)
    ensures OccursAt(stem + VSFS + name, VSFS, |stem|)
  {
  }

  /**
   * Taking a built index path apart gives back its directory and its name if and only if no component of the
   * directory is `.vsfs`; the root directory included.
   */
  lemma SplitInvertsIndexPathIff(root: string, name: string)
    requires Normal(root) && name != "" && name[0] != '/'
    ensures SplitIndexPath(IndexPath(root, name)) == Some((root, name)) <==> !HasVsfsComponent(root)
  {
    IndexPathText(root, name);
    var stem := Stem(root);
    var s := stem + VSFS + name;
    MarkerIsThere(stem, name);
    var pos := Find(s, VSFS, 0);
    assert pos <= |stem|;
    assert s[|stem| + |VSFS|..] == name && s[..|stem|] == stem;
    if pos < |stem| {
      EarlierMarker(stem, name, pos);
      assert OccursAt(root + "/", VSFS, pos);
      assert |s[..pos]| < |root| && root != "/";
    } else if root == "/" {
      assert |root + "/"| < |VSFS|;
    } else {
      forall i: nat ensures !OccursAt(root + "/", VSFS, i) {
        if i < |stem| { EarlierMarker(stem, name, i); }
      }
    }
  }
}
