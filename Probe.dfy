/**
 * The two name-probing loops of `download_image` (utils.py lines 171-176
 * and 193-199). Each tries a first path and then `<root>_<n><ext>` for
 * n = 1, 2, ... until it finds one that does not exist. The set of
 * existing paths stands for `os.path.exists`; it is finite, so some
 * probe is long enough not to be in it and the loops terminate.
 */
module Probe {
  import opened Text
  import opened Paths
  import opened Wrappers

  /** `f"{root}_{n}{ext}"`. */
  function ProbeName(root: string, ext: string, n: nat): (r: string)
    ensures |r| == |root| + 1 + |NatToString(n)| + |ext|
    ensures r[..|root|] == root && r[|root|] == '_' && r[|r| - |ext|..] == ext
    ensures r[|root| + 1..|r| - |ext|] == NatToString(n)
  {
    root + "_" + NatToString(n) + ext
  }

  /** Different probe numbers give different names, so each probe tries a new path. */
  lemma ProbeNamesDistinct(root: string, ext: string, n: nat, m: nat)
    requires n != m
    ensures ProbeName(root, ext, n) != ProbeName(root, ext, m)
  {
    if ProbeName(root, ext, n) == ProbeName(root, ext, m) {
      NatToStringInjective(n, m);
    }
  }

  /** The n-th probe, joined under `dir` when one is given. */
  function Candidate(dir: Option<string>, root: string, ext: string, n: nat): (r: string)
    ensures |r| > |NatToString(n)|
  {
    match dir
    case None => ProbeName(root, ext, n)
    case Some(d) => Join(d, ProbeName(root, ext, n))
  }

  /** A bound on the length of every path in `s`. */
  ghost function MaxLen(s: set<string>): (m: nat)
    ensures forall p :: p in s ==> |p| <= m
  {
    if s == {} then 0
    else
      var p :| p in s;
      var m := MaxLen(s - {p});
      if |p| > m then |p| else m
  }

  /** Probes numbered `10^MaxLen` or more are too long to be taken. */
  lemma ProbeBeyondTaken(taken: set<string>, dir: Option<string>, root: string, ext: string, n: nat)
    requires n >= Pow10(MaxLen(taken))
    ensures Candidate(dir, root, ext, n) !in taken
  {
    NatToStringLength(n, MaxLen(taken));
  }

  /** The first probe number from `n` on whose candidate is not taken. */
  function FirstFree(taken: set<string>, dir: Option<string>, root: string, ext: string, n: nat): (r: nat)
    ensures r >= n && Candidate(dir, root, ext, r) !in taken
    ensures forall i :: n <= i < r ==> Candidate(dir, root, ext, i) in taken
    decreases Pow10(MaxLen(taken)) - n
  {
    if Candidate(dir, root, ext, n) !in taken then n
    else
      assert n < Pow10(MaxLen(taken)) by {
        if n >= Pow10(MaxLen(taken)) { ProbeBeyondTaken(taken, dir, root, ext, n); }
      }
      FirstFree(taken, dir, root, ext, n + 1)
  }

  /**
   * The temporary path as utils.py lines 171-176 compute it: the name under
   * `dest` if free, else the first free `<base>_<n><ext>`, which the loop
   * builds WITHOUT the destination folder.
   */
  function TempPath(dest: string, tempName: string, existing: set<string>): (r: string)
    ensures r !in existing
    ensures r == Join(dest, tempName) ||
            exists n :: n >= 1 && r == ProbeName(SplitExt(tempName).0, SplitExt(tempName).1, n)
  {
    var first := Join(dest, tempName);
    if first !in existing then first
    else
      var (root, ext) := SplitExt(tempName);
      var n := FirstFree(existing, None, root, ext, 1);
      ProbeName(root, ext, n)
  }

  /** The loop of utils.py lines 171-176. */
  method ProbeTempPath(dest: string, tempName: string, existing: set<string>) returns (path: string)
    ensures path == TempPath(dest, tempName, existing)
  {
    var (root, ext) := SplitExt(tempName);
    var counter: nat := 1;
    path := Join(dest, tempName);
    ghost var bound := Pow10(MaxLen(existing));
    while path in existing
      invariant counter >= 1
      invariant counter == 1 ==> path == Join(dest, tempName)
      invariant counter > 1 ==> Join(dest, tempName) in existing &&
                                path == ProbeName(root, ext, counter - 1) &&
                                FirstFree(existing, None, root, ext, 1)
                                  == FirstFree(existing, None, root, ext, counter - 1)
      decreases bound + 1 - counter
    {
      if counter > 1 && counter - 1 >= bound {
        ProbeBeyondTaken(existing, None, root, ext, counter - 1);
      }
      path := ProbeName(root, ext, counter);
      counter := counter + 1;
    }
  }

  /**
   * `dest = "downloads"`, name `a.jpg` already there: the loop settles on
   * `a_1.jpg`, which is not a path inside `downloads`.
   */
  lemma LaterProbeLeavesDestination()
    ensures TempPath("downloads", "a.jpg", {"downloads/a.jpg"}) == "a_1.jpg"
    ensures forall n :: Join("downloads", n) != "a_1.jpg"
  {
    DownloadsJoin();
    ShortSplit();
    assert ProbeName("a", ".jpg", 1) == "a_1.jpg" by {
      assert NatToString(1) == "1";
    }
    assert FirstFree({"downloads/a.jpg"}, None, "a", ".jpg", 1) == 1;
    forall n ensures Join("downloads", n) != "a_1.jpg" {
      OutsideDownloads(n);
    }
  }

  lemma DownloadsJoin()
    ensures Join("downloads", "a.jpg") == "downloads/a.jpg"
  {
    assert !StartsWith("a.jpg", "/") by { assert "a.jpg"[0] == 'a'; }
    assert "downloads"[8] == 's';
  }

  lemma ShortSplit()
    ensures SplitExt("a.jpg") == ("a", ".jpg")
  {
    assert "a.jpg"[..4] == "a.jp" && "a.jp"[..3] == "a.j" && "a.j"[..2] == "a.";
    assert LastIndexOf("a.jpg", '/') == -1;
    assert LastIndexOf("a.jpg", '.') == 1;
    assert HasExt("a.jpg") by { assert "a.jpg"[0] != '.'; }
    assert "a.jpg"[..1] == "a" && "a.jpg"[1..] == ".jpg";
  }

  lemma OutsideDownloads(n: string)
    ensures Join("downloads", n) != "a_1.jpg"
  {
    var j := Join("downloads", n);
    if StartsWith(n, [Sep]) {
      assert j[0] == n[..1][0] == '/';
    } else {
      assert j[0] == j[..|"downloads"|][0] == 'd';
    }
    assert "a_1.jpg"[0] == 'a';
  }

  /**
   * The temporary path with every probe kept under `dest`, as the first
   * probe already is: the result never exists and is always inside `dest`.
   */
  function TempPathInDir(dest: string, tempName: string, existing: set<string>): (r: string)
    ensures r !in existing
    ensures r == Join(dest, tempName) ||
            exists n :: n >= 1 && r == Join(dest, ProbeName(SplitExt(tempName).0, SplitExt(tempName).1, n))
  {
    var first := Join(dest, tempName);
    if first !in existing then first
    else
      var (root, ext) := SplitExt(tempName);
      var n := FirstFree(existing, Some(dest), root, ext, 1);
      Join(dest, ProbeName(root, ext, n))
  }

  /**
   * With `photo.jpg` and `photo_1.jpg` taken in a folder, the corrected
   * probe gives `photo_2.jpg` in that same folder.
   */
  lemma TempPathInDirExample(dest: string)
    requires dest != [] && dest[|dest| - 1] != Sep
    ensures TempPathInDir(dest, "photo.jpg", {dest + "/photo.jpg", dest + "/photo_1.jpg"})
            == dest + "/photo_2.jpg"
  {
    var existing := {dest + "/photo.jpg", dest + "/photo_1.jpg"};
    PhotoSplit();
    PhotoJoin(dest, "photo.jpg");
    assert dest + "/" + "photo.jpg" == dest + "/photo.jpg";
    PhotoFirstProbe(dest);
    PhotoSecondProbe(dest);
    FirstFreeSkips(existing, Some(dest), "photo", ".jpg", 1);
    FirstFreeSkips(existing, Some(dest), "photo", ".jpg", 2);
    assert FirstFree(existing, Some(dest), "photo", ".jpg", 1) == 2;
  }

  /** A taken candidate is skipped; a free one is the answer. */
  lemma FirstFreeSkips(taken: set<string>, dir: Option<string>, root: string, ext: string, n: nat)
    ensures Candidate(dir, root, ext, n) in taken ==>
              FirstFree(taken, dir, root, ext, n) == FirstFree(taken, dir, root, ext, n + 1)
    ensures Candidate(dir, root, ext, n) !in taken ==> FirstFree(taken, dir, root, ext, n) == n
  {
  }

  lemma PhotoJoin(dest: string, name: string)
    requires dest != [] && dest[|dest| - 1] != Sep
    requires name != [] && name[0] == 'p'
    ensures Join(dest, name) == dest + "/" + name
  {
    assert !StartsWith(name, [Sep]) by { assert name[..1] == [name[0]]; }
    assert dest + [Sep] + name == dest + "/" + name;
  }

  lemma PhotoSplit()
    ensures SplitExt("photo.jpg") == ("photo", ".jpg")
  {
    assert "photo.jpg"[..8] == "photo.jp" && "photo.jp"[..7] == "photo.j" && "photo.j"[..6] == "photo.";
    assert LastIndexOf("photo.jpg", '/') == -1;
    assert LastIndexOf("photo.jpg", '.') == 5;
    assert HasExt("photo.jpg") by { assert "photo.jpg"[0] != '.'; }
    assert "photo.jpg"[..5] == "photo" && "photo.jpg"[5..] == ".jpg";
  }

  lemma PhotoFirstProbe(dest: string)
    requires dest != [] && dest[|dest| - 1] != Sep
    ensures Candidate(Some(dest), "photo", ".jpg", 1) == dest + "/photo_1.jpg"
    ensures dest + "/photo_1.jpg" != dest + "/photo.jpg"
  {
    PhotoJoin(dest, "photo_1.jpg");
    assert "photo_" + [DigitChar(1)] + ".jpg" == "photo_1.jpg";
    assert dest + "/" + "photo_1.jpg" == dest + "/photo_1.jpg";
    assert (dest + "/photo_1.jpg")[|dest| + 6] == '_';
  }

  lemma PhotoSecondProbe(dest: string)
    requires dest != [] && dest[|dest| - 1] != Sep
    ensures Candidate(Some(dest), "photo", ".jpg", 2) == dest + "/photo_2.jpg"
    ensures dest + "/photo_2.jpg" !in {dest + "/photo.jpg", dest + "/photo_1.jpg"}
  {
    PhotoJoin(dest, "photo_2.jpg");
    assert "photo_" + [DigitChar(2)] + ".jpg" == "photo_2.jpg";
    assert dest + "/" + "photo_2.jpg" == dest + "/photo_2.jpg";
    assert (dest + "/photo_2.jpg")[|dest| + 6] == '_';
    assert (dest + "/photo_2.jpg")[|dest| + 7] == '2';
  }

  /**
   * The final `.jpg` path as utils.py lines 190-199 compute it: `<base>.jpg`
   * under `dest`, where `<base>` is the downloaded file's name without its
   * extension; while that path exists and is not the downloaded file itself,
   * the next `<root>_<n>.jpg` is tried.
   */
  function JpgPath(dest: string, initialPath: string, existing: set<string>): (r: string)
    ensures r !in existing || r == initialPath
  {
    var first := JpgFirst(dest, initialPath);
    if first !in existing || first == initialPath then first
    else
      var root := SplitExt(first).0;
      var n := FirstFree(existing - {initialPath}, None, root, ".jpg", 1);
      ProbeName(root, ".jpg", n)
  }

  /** `<base>.jpg` under `dest`, the first path the `.jpg` loop tries. */
  function JpgFirst(dest: string, initialPath: string): string
  {
    Join(dest, SplitExt(Basename(initialPath)).0 + ".jpg")
  }

  /** The loop of utils.py lines 193-199. */
  method ProbeJpgPath(dest: string, initialPath: string, existing: set<string>) returns (path: string)
    ensures path == JpgPath(dest, initialPath, existing)
  {
    path := JpgFirst(dest, initialPath);
    var counter: nat := 1;
    var original := path;
    var root := SplitExt(original).0;
    ghost var taken := existing - {initialPath};
    ghost var bound := Pow10(MaxLen(taken));
    while path in existing && path != initialPath
      invariant counter >= 1
      invariant counter == 1 ==> path == original
      invariant counter > 1 ==> original in taken &&
                                path == ProbeName(root, ".jpg", counter - 1) &&
                                FirstFree(taken, None, root, ".jpg", 1)
                                  == FirstFree(taken, None, root, ".jpg", counter - 1)
      decreases bound + 1 - counter
    {
      if counter > 1 {
        assert Candidate(None, root, ".jpg", counter - 1) in taken;
        FirstFreeSkips(taken, None, root, ".jpg", counter - 1);
        if counter - 1 >= bound {
          ProbeBeyondTaken(taken, None, root, ".jpg", counter - 1);
        }
      }
      path := ProbeName(root, ".jpg", counter);
      counter := counter + 1;
    }
  }
}
