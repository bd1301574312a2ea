/**
 * The bookkeeping of main.py around each model page: the model id taken
 * from the URL, the processing limit, the names of the output folders, the
 * loop that moves a temporary folder's items into the final one, and the
 * rewrite of the recorded paths to the final folders.
 */
module Driver {
  import opened Text
  import opened Paths
  import opened Sanitizer
  import opened Wrappers
  import Crawler

  const IdPrefix: string := "/model/"
  const NoTagFolder: string := "No_Tag"
  const UnknownId: string := "unknown_id_"

  // ---------------------------------------------------------------------
  // Model id (main.py lines 163-164)
  // ---------------------------------------------------------------------

  /** Whether `/model/` followed by a digit starts at position `p` of `url`. */
  predicate IdAt(url: string, p: nat)
  {
    p + |IdPrefix| < |url| && url[p..p + |IdPrefix|] == IdPrefix && IsDigit(url[p + |IdPrefix|])
  }

  /** The leftmost position from `p` on where `/model/<digit>` starts, as `re.search` scans. */
  function FindId(url: string, p: nat): (r: Option<nat>)
    ensures r.Some? ==> p <= r.value && IdAt(url, r.value)
    ensures r.Some? ==> forall q :: p <= q < r.value ==> !IdAt(url, q)
    ensures r.None? ==> forall q :: p <= q ==> !IdAt(url, q)
    decreases |url| - p
  {
    if p + |IdPrefix| >= |url| then None
    else if IdAt(url, p) then Some(p)
    else FindId(url, p + 1)
  }

  /** Length of the run of digits at the start of `s` (`\d+` is greedy). */
  function DigitRun(s: string): (k: nat)
    ensures k <= |s|
    ensures forall i :: 0 <= i < k ==> IsDigit(s[i])
    ensures k < |s| ==> !IsDigit(s[k])
  {
    if s == [] || !IsDigit(s[0]) then 0 else 1 + DigitRun(s[1..])
  }

  /**
   * `re.search(r'/model/(\d+)', url).group(1)`, or `unknown_id_<index>` when
   * there is no match. Either way the id is a non-empty single path segment.
   */
  function ModelId(url: string, index: nat): (id: string)
    ensures id != [] && Sep !in id
  {
    match FindId(url, 0)
    case Some(p) =>
      var s := url[p + |IdPrefix|..];
      var k := DigitRun(s);
      assert k >= 1 by { assert s[0] == url[p + |IdPrefix|]; }
      assert forall i :: 0 <= i < k ==> s[..k][i] != Sep by {
        forall i | 0 <= i < k ensures s[..k][i] != Sep { assert IsDigit(s[i]); }
      }
      s[..k]
    case None =>
      var n := NatToString(index);
      assert forall i :: 0 <= i < |n| ==> n[i] != Sep by {
        forall i | 0 <= i < |n| ensures n[i] != Sep { assert IsDigit(n[i]); }
      }
      assert Sep !in UnknownId;
      UnknownId + n
  }

  /**
   * When the first `/model/<digit>` starts at `p`, the id is the whole run
   * of digits that follows `/model/` there.
   */
  lemma ModelIdOfMatch(url: string, index: nat, p: nat)
    requires IdAt(url, p)
    requires forall q :: 0 <= q < p ==> !IdAt(url, q)
    ensures var id := ModelId(url, index);
            var start := p + |IdPrefix|;
            start + |id| <= |url| && url[start..start + |id|] == id &&
            (forall i :: 0 <= i < |id| ==> IsDigit(id[i])) &&
            (start + |id| < |url| ==> !IsDigit(url[start + |id|]))
  {
    assert FindId(url, 0) == Some(p);
    var s := url[p + |IdPrefix|..];
    var k := DigitRun(s);
    assert forall i :: 0 <= i < k ==> url[p + |IdPrefix| + i] == s[i];
  }

  /** Without any `/model/<digit>` in the URL the id falls back to the loop index. */
  lemma ModelIdFallback(url: string, index: nat)
    requires forall q :: !IdAt(url, q)
    ensures ModelId(url, index) == UnknownId + NatToString(index)
  {
    assert FindId(url, 0).None?;
  }

  /**
   * A link as the crawler stores it, `https://www.printables.com/model/`
   * followed by digits and then something that is not a digit, has those
   * digits as its id.
   */
  lemma ModelIdOfCollectedLink(digits: string, rest: string, index: nat)
    requires digits != [] && forall i :: 0 <= i < |digits| ==> IsDigit(digits[i])
    requires rest == [] || !IsDigit(rest[0])
    ensures ModelId(Crawler.Host + IdPrefix + digits + rest, index) == digits
  {
    var url := Crawler.Host + IdPrefix + digits + rest;
    var p := |Crawler.Host|;
    assert url[..p] == Crawler.Host;
    assert url[p..p + |IdPrefix|] == IdPrefix;
    assert url[p + |IdPrefix|..] == digits + rest;
    assert IdAt(url, p) by { assert url[p + |IdPrefix|] == digits[0]; }
    forall q | 0 <= q < p ensures !IdAt(url, q) {
      HostHasNoIdPrefix(url, q);
    }
    ModelIdOfMatch(url, index, p);
    var id := ModelId(url, index);
    var start := p + |IdPrefix|;
    assert forall i :: 0 <= i < |digits| ==> url[start + i] == digits[i];
    assert |digits| < |digits + rest| ==> url[start + |digits|] == rest[0];
    assert |id| == |digits| && url[start..start + |digits|] == digits;
  }

  /** No `/model/` starts inside the host part of a link. */
  lemma HostHasNoIdPrefix(url: string, q: nat)
    requires StartsWith(url, Crawler.Host) && q < |Crawler.Host|
    ensures !IdAt(url, q)
  {
    var h := Crawler.Host;
    assert url[..|h|] == h;
    assert forall k :: 0 <= k < |h| - 1 ==> !(h[k] == '/' && h[k + 1] == 'm');
    assert h[|h| - 1] != '/';
    assert q + |IdPrefix| < |url| ==>
             url[q..q + |IdPrefix|][0] == url[q] && url[q..q + |IdPrefix|][1] == url[q + 1];
  }

  // ---------------------------------------------------------------------
  // Processing limit (main.py lines 130-131)
  // ---------------------------------------------------------------------

  /** `urls[:limit]` when `limit > 0`; the whole list otherwise. */
  function LimitUrls(urls: seq<string>, limit: int): (r: seq<string>)
    ensures r <= urls
    ensures limit <= 0 || limit >= |urls| ==> r == urls
    ensures 0 < limit < |urls| ==> |r| == limit
  {
    if limit > 0 && limit < |urls| then urls[..limit] else urls
  }

  /** Applying the same limit again changes nothing. */
  lemma LimitUrlsIdempotent(urls: seq<string>, limit: int)
    ensures LimitUrls(LimitUrls(urls, limit), limit) == LimitUrls(urls, limit)
  {
  }

  // ---------------------------------------------------------------------
  // Output folders (main.py lines 192-203)
  // ---------------------------------------------------------------------

  /** The category folder: `No_Tag` without tags, else the first tag sanitized. */
  function CategoryFolder(tags: seq<string>): (r: string)
    ensures |r| <= MaxLength && Sep !in r
  {
    if tags == [] then NoTagFolder
    else
      SanitizeSafe(tags[0]);
      Sanitize(tags[0])
  }

  /** A first tag with no usable character gives an empty category name. */
  lemma CategoryFolderMayBeEmpty(tag: string)
    requires forall i :: 0 <= i < |tag| ==> !Allowed(tag[i])
    ensures CategoryFolder([tag]) == []
  {
    assert DropDisallowed(tag) == [] by {
      NothingAllowed(tag);
    }
  }

  lemma {:induction false} NothingAllowed(s: string)
    requires forall i :: 0 <= i < |s| ==> !Allowed(s[i])
    ensures DropDisallowed(s) == []
  {
    if s != [] {
      NothingAllowed(s[1..]);
    }
  }

  /** A first tag `..` names the parent of the output folder. */
  lemma CategoryFolderMayBeParent()
    ensures CategoryFolder([".."]) == ".."
  {
    SanitizeKeepsDotDot();
  }

  /** `f"{model_id}_{sanitized_title}"`. */
  function ModelFolderName(id: string, title: string): (r: string)
    ensures |r| > |id| && StartsWith(r, id) && r[|id|] == '_'
  {
    JoinedAfter(id, '_', Sanitize(title));
    id + "_" + Sanitize(title)
  }

  lemma JoinedAfter(a: string, c: char, b: string)
    ensures |a + [c] + b| > |a| && StartsWith(a + [c] + b, a) && (a + [c] + b)[|a|] == c
  {
    assert (a + [c] + b)[..|a|] == a;
  }

  /**
   * The model folder is always one proper path segment: non-empty, free of
   * separators and neither `.` nor `..`, whatever the URL and title.
   */
  lemma ModelFolderIsSegment(url: string, index: nat, title: string)
    ensures var name := ModelFolderName(ModelId(url, index), title);
            name != [] && Sep !in name && name != "." && name != ".." && name[0] != Sep
  {
    var id := ModelId(url, index);
    var name := ModelFolderName(id, title);
    assert name[|id|] == '_';
    assert name != "." && name != ".." by {
      if |name| <= 2 {
        assert |id| == 1 && name[1] == '_';
      }
    }
    assert name == id + "_" + Sanitize(title);
    SanitizeSafe(title);
    assert name[0] in name;
  }

  /** `os.path.join(os.path.join(base, first_tag), f"{model_id}_{sanitized_title}")`. */
  function ModelDirectory(base: string, tags: seq<string>, id: string, title: string): string
  {
    Join(Join(base, CategoryFolder(tags)), ModelFolderName(id, title))
  }

  /** The model directory sits in the category folder and is named after the model. */
  lemma ModelDirectoryPlace(base: string, tags: seq<string>, url: string, index: nat, title: string)
    ensures var id := ModelId(url, index);
            var dir := ModelDirectory(base, tags, id, title);
            Basename(dir) == ModelFolderName(id, title) &&
            StartsWith(dir, Join(base, CategoryFolder(tags)))
  {
    var id := ModelId(url, index);
    var name := ModelFolderName(id, title);
    ModelFolderIsSegment(url, index, title);
    assert !StartsWith(name, [Sep]) by { assert name[..1] == [name[0]]; }
    BasenameOfJoin(Join(base, CategoryFolder(tags)), name);
  }

  /** `os.path.join(OUTPUT_BASE_DIRECTORY, f"{model_id}_temp_model_folder")` (lines 167-168). */
  function TempModelDirectory(base: string, id: string): string
  {
    Join(base, id + "_" + TempTitle)
  }

  const TempTitle: string := "temp_model_folder"

  /**
   * A first tag with no usable character and the title `temp_model_folder`
   * put the final model folder exactly where the temporary one is: the
   * moves of lines 220-237 then move every item onto itself, and the
   * clean-up of lines 264-267 removes the final folder with the record.
   */
  lemma ModelDirectoryMayBeTempFolder(base: string, url: string, index: nat, tag: string, title: string)
    requires forall i :: 0 <= i < |tag| ==> !Allowed(tag[i])
    requires title == TempTitle
    ensures var id := ModelId(url, index);
            ModelDirectory(base, [tag], id, title) == TempModelDirectory(base, id)
  {
    var id := ModelId(url, index);
    CategoryFolderMayBeEmpty(tag);
    TempTitleKept(title);
    EmptyCategoryJoin(base, ModelFolderName(id, title));
  }

  lemma TempTitleKept(title: string)
    requires title == TempTitle
    ensures Sanitize(title) == title
  {
    forall i | 0 <= i < |title| ensures Safe(title[i]) {
      assert IsAsciiLetter(title[i]) || title[i] == '_';
    }
    SanitizeFixedPoint(title);
  }

  /** An empty middle segment leaves the join as if it were not there. */
  lemma EmptyCategoryJoin(base: string, name: string)
    requires name != [] && name[0] != Sep
    ensures Join(Join(base, []), name) == Join(base, name)
  {
    JoinUnder(base, []);
    JoinUnder(base, name);
    JoinUnder(Join(base, []), name);
  }

  /** The category folder with the `No_Tag` default also for a tag that sanitizes to nothing. */
  function IntendedCategoryFolder(tags: seq<string>): (r: string)
    ensures r != [] && Sep !in r
  {
    if tags == [] || Sanitize(tags[0]) == [] then NoTagFolder
    else
      SanitizeSafe(tags[0]);
      Sanitize(tags[0])
  }

  function IntendedModelDirectory(base: string, tags: seq<string>, id: string, title: string): string
  {
    Join(Join(base, IntendedCategoryFolder(tags)), ModelFolderName(id, title))
  }

  /** With a category folder that is never empty, the model folder is never the temporary one. */
  lemma IntendedModelDirectoryNotTemp(base: string, tags: seq<string>, url: string, index: nat, title: string)
    ensures var id := ModelId(url, index);
            IntendedModelDirectory(base, tags, id, title) != TempModelDirectory(base, id)
  {
    var id := ModelId(url, index);
    var name := ModelFolderName(id, title);
    assert name != [] && Sep !in name && name[0] != Sep by {
      ModelFolderIsSegment(url, index, title);
    }
    var c := IntendedCategoryFolder(tags);
    TempTitleIsOneSegment();
    JoinTwoNotOne(base, c, name, id + "_" + TempTitle);
  }

  lemma TempTitleIsOneSegment()
    ensures Sep !in TempTitle
  {
    forall i | 0 <= i < |TempTitle| ensures TempTitle[i] != Sep {
      assert IsAsciiLetter(TempTitle[i]) || TempTitle[i] == '_';
    }
  }

  /** A path two segments below `base` is never one segment below it. */
  lemma JoinTwoNotOne(base: string, c: string, name: string, t: string)
    requires c != [] && Sep !in c && name != [] && name[0] != Sep && Sep !in t
    ensures Join(Join(base, c), name) != Join(base, t)
  {
    var stem := JoinStem(base);
    JoinUnder(base, c);
    JoinUnder(base, t);
    var dir := Join(base, c);
    assert dir[|dir| - 1] == c[|c| - 1] != Sep;
    var final := Join(dir, name);
    assert final == stem + c + [Sep] + name;
    assert final[|stem| + |c|] == Sep;
    var other := Join(base, t);
    assert |other| == |final| ==> other[|stem| + |c|] == t[|c|];
  }

  /** What `os.path.join(a, b)` puts before a relative `b`. */
  function JoinStem(a: string): string
  {
    if a == [] || a[|a| - 1] == Sep then a else a + [Sep]
  }

  lemma JoinUnder(a: string, b: string)
    requires b == [] || b[0] != Sep
    ensures Join(a, b) == JoinStem(a) + b
  {
  }

  // ---------------------------------------------------------------------
  // Moving a temporary folder's items (main.py lines 220-237)
  // ---------------------------------------------------------------------

  /**
   * `shutil.move(item, dst)` raises `shutil.Error` when `dst` already holds
   * an entry of that name; `faulty` holds the items whose move raises it
   * for any other reason.
   */
  predicate MoveFails(name: string, dstNames: set<string>, faulty: set<string>)
  {
    name in dstNames || name in faulty
  }

  /** What the destination holds once every item of the source was tried. */
  function Arrived(srcNames: set<string>, dstNames: set<string>, faulty: set<string>): (r: set<string>)
    ensures dstNames <= r <= dstNames + srcNames
  {
    dstNames + (srcNames - dstNames - faulty)
  }

  /** What stays in the source: the items whose move raised `shutil.Error`. */
  function Stranded(srcNames: set<string>, dstNames: set<string>, faulty: set<string>): (r: set<string>)
    ensures r <= srcNames
  {
    srcNames * (dstNames + faulty)
  }

  /**
   * No item is lost or duplicated: each item of the source either arrives or
   * stays, never both, and a stranded item is one whose name was taken or
   * whose move failed otherwise.
   */
  lemma MoveConserves(srcNames: set<string>, dstNames: set<string>, faulty: set<string>)
    ensures Arrived(srcNames, dstNames, faulty) + Stranded(srcNames, dstNames, faulty) == dstNames + srcNames
    ensures (Arrived(srcNames, dstNames, faulty) - dstNames) * Stranded(srcNames, dstNames, faulty) == {}
    ensures forall n :: n in srcNames ==>
              (n in Stranded(srcNames, dstNames, faulty) <==> n in dstNames || n in faulty)
  {
  }

  /**
   * Every item name of the source is present at the destination afterwards,
   * except those whose move failed for a reason other than a name clash.
   */
  lemma NamesReachDestination(srcNames: set<string>, dstNames: set<string>, faulty: set<string>, n: string)
    requires n in srcNames
    ensures n in Arrived(srcNames, dstNames, faulty) <==> n in dstNames || n !in faulty
  {
  }

  /**
   * Moving a folder's items into the folder itself moves nothing: every
   * name clashes with itself, so every item stays where it is.
   */
  lemma MoveOntoItself(names: set<string>, faulty: set<string>)
    ensures Arrived(names, names, faulty) == names
    ensures Stranded(names, names, faulty) == names
  {
  }

  /** The folders of the output tree and the names each holds. */
  class Disk {
    var entries: map<string, set<string>>

    constructor (initial: map<string, set<string>>)
      ensures entries == initial
    {
      entries := initial;
    }

    /**
     * `shutil.move(os.path.join(src, name), dst)` inside its `try`: the item
     * moves unless that raises `shutil.Error`, in which case nothing changes.
     */
    method MoveOne(src: string, dst: string, name: string, faulty: set<string>)
      requires src in entries && dst in entries && name in entries[src]
      modifies this
      ensures entries.Keys == old(entries).Keys
      ensures forall k :: k in old(entries) && k != src && k != dst ==> entries[k] == old(entries)[k]
      ensures entries[src] == if MoveFails(name, old(entries[dst]), faulty) then old(entries[src])
                              else old(entries[src]) - {name}
      ensures entries[dst] == if MoveFails(name, old(entries[dst]), faulty) then old(entries[dst])
                              else old(entries[dst]) + {name}
    {
      if name in entries[dst] || name in faulty {
        // shutil.Error: reported, and the loop goes on with the next item.
      } else {
        entries := entries[src := entries[src] - {name}][dst := entries[dst] + {name}];
      }
    }

    /**
     * `if os.path.exists(src): for item in os.listdir(src): ...`. The items
     * are taken in whatever order the listing gives; the outcome does not
     * depend on it. No folder appears or disappears, and only `src` and
     * `dst` change.
     */
    method MoveAll(src: string, dst: string, faulty: set<string>)
      requires dst in entries
      modifies this
      ensures entries.Keys == old(entries).Keys
      ensures forall k :: k in old(entries) && k != src && k != dst ==> entries[k] == old(entries)[k]
      ensures entries[dst] == if src in old(entries) then Arrived(old(entries[src]), old(entries[dst]), faulty)
                              else old(entries[dst])
      ensures src in old(entries) ==> entries[src] == Stranded(old(entries[src]), old(entries[dst]), faulty)
    {
      if src in entries {
        ghost var start := entries;
        ghost var srcNames := entries[src];
        ghost var dstNames := entries[dst];
        ghost var done: set<string> := {};
        var pending := entries[src];
        while pending != {}
          invariant forall n :: n in srcNames <==> n in done || n in pending
          invariant forall n :: n in done ==> n !in pending
          invariant entries.Keys == start.Keys
          invariant forall k :: k in start && k != src && k != dst ==> entries[k] == start[k]
          invariant forall n :: n in entries[dst] <==> n in dstNames || (n in done && n !in faulty)
          invariant forall n :: n in entries[src] <==> n in pending || (n in done && MoveFails(n, dstNames, faulty))
          decreases |pending|
        {
          var name :| name in pending;
          MoveOne(src, dst, name, faulty);
          done := done + {name};
          pending := pending - {name};
        }
        LoopOutcome(entries[dst], entries[src], srcNames, dstNames, faulty, done);
      }
    }
  }

  /** The pointwise description the move loop keeps, once every item was tried. */
  lemma LoopOutcome(dstNow: set<string>, srcNow: set<string>, srcNames: set<string>, dstNames: set<string>,
                    faulty: set<string>, done: set<string>)
    requires forall n :: n in srcNames <==> n in done
    requires forall n :: n in dstNow <==> n in dstNames || (n in done && n !in faulty)
    requires forall n :: n in srcNow <==> n in done && MoveFails(n, dstNames, faulty)
    ensures dstNow == Arrived(srcNames, dstNames, faulty)
    ensures srcNow == Stranded(srcNames, dstNames, faulty)
  {
  }

  // ---------------------------------------------------------------------
  // Rewriting the recorded paths (main.py lines 240-250)
  // ---------------------------------------------------------------------

  /** Each path replaced by `os.path.join(dest, os.path.basename(p))`, in order. */
  function Rebased(dest: string, paths: seq<string>): seq<string>
  {
    seq(|paths|, i requires 0 <= i < |paths| => RebasedPath(dest, paths[i]))
  }

  /** `os.path.join(dest, os.path.basename(p))`. */
  function RebasedPath(dest: string, p: string): string
  {
    Join(dest, Basename(p))
  }

  /** One of the two rewrite loops, building the new list by appending. */
  method RebaseLoop(dest: string, paths: seq<string>) returns (r: seq<string>)
    ensures r == Rebased(dest, paths)
  {
    r := [];
    for i := 0 to |paths|
      invariant |r| == i
      invariant forall j :: 0 <= j < i ==> r[j] == RebasedPath(dest, paths[j])
    {
      r := r + [RebasedPath(dest, paths[i])];
    }
  }

  /** Both rewrite loops, overwriting the two path lists of the model's record. */
  method RewritePaths(details: Crawler.ModelData, filesDest: string, imagesDest: string)
    modifies details`downloadedFilepaths, details`downloadedImageFilepaths
    ensures details.downloadedFilepaths == Rebased(filesDest, old(details.downloadedFilepaths))
    ensures details.downloadedImageFilepaths == Rebased(imagesDest, old(details.downloadedImageFilepaths))
  {
    var files := RebaseLoop(filesDest, details.downloadedFilepaths);
    details.downloadedFilepaths := files;
    var images := RebaseLoop(imagesDest, details.downloadedImageFilepaths);
    details.downloadedImageFilepaths := images;
  }

  /** A rewritten path keeps its file name and lies inside `dest`. */
  lemma RebasedPlace(dest: string, paths: seq<string>, i: nat)
    requires i < |paths|
    ensures Basename(Rebased(dest, paths)[i]) == Basename(paths[i])
    ensures StartsWith(Rebased(dest, paths)[i], dest)
  {
    JoinBasename(dest, paths[i]);
  }

  /** Rewriting twice to the same folder is the same as rewriting once. */
  lemma RebasedIdempotent(dest: string, paths: seq<string>)
    ensures Rebased(dest, Rebased(dest, paths)) == Rebased(dest, paths)
  {
    var r := Rebased(dest, paths);
    forall i | 0 <= i < |paths| ensures Rebased(dest, r)[i] == r[i] {
      RebasedPlace(dest, paths, i);
    }
  }

  /**
   * Every path is rewritten, moved or not: when the item a path names stayed
   * in the temporary folder because its move failed for another reason than
   * a name clash, the rewritten path names nothing at the destination.
   */
  lemma RebasedMayNameMissingFile(dest: string, paths: seq<string>, i: nat,
                                  srcNames: set<string>, dstNames: set<string>, faulty: set<string>)
    requires i < |paths|
    requires Basename(paths[i]) in srcNames && Basename(paths[i]) !in dstNames && Basename(paths[i]) in faulty
    ensures Basename(Rebased(dest, paths)[i]) !in Arrived(srcNames, dstNames, faulty)
  {
    RebasedPlace(dest, paths, i);
  }

  /**
   * Without other failures, every rewritten path whose item was in the
   * temporary folder names an entry of the destination, whether that item
   * moved or collided with an entry already there.
   */
  lemma RebasedNamesArrived(dest: string, paths: seq<string>, srcNames: set<string>,
                            dstNames: set<string>, faulty: set<string>)
    requires forall i :: 0 <= i < |paths| ==> Basename(paths[i]) in srcNames
    requires forall n :: n in srcNames ==> n !in faulty
    ensures forall i :: 0 <= i < |paths| ==>
              Basename(Rebased(dest, paths)[i]) in Arrived(srcNames, dstNames, faulty)
  {
    forall i | 0 <= i < |paths|
      ensures Basename(Rebased(dest, paths)[i]) in Arrived(srcNames, dstNames, faulty)
    {
      RebasedPlace(dest, paths, i);
      NamesReachDestination(srcNames, dstNames, faulty, Basename(paths[i]));
    }
  }
}
