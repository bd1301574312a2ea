/**
 * The rules of scraper.py that do not depend on the browser: which links
 * the listing crawl keeps and when its scroll loop stops (`scrape_models`),
 * and how `scrape_model_details` fills in a model's record: tags, image
 * file names and the bookkeeping of file downloads. What the browser shows
 * (the hrefs after each scroll, the page height, the tag texts, the outcome
 * of each download) is given as input.
 */
module Crawler {
  import opened Text
  import opened Paths
  import opened Wrappers

  const Host: string := "https://www.printables.com"
  const ModelPath: string := "/model/"

  /** A link the crawl may return. */
  predicate IsModelLink(l: string)
  {
    StartsWith(l, Host + ModelPath) && '?' !in l
  }

  /** The query-free prefix of an href that starts with `/model/` still starts with it. */
  lemma BeforeQueryKeepsModelPath(href: string)
    requires StartsWith(href, ModelPath)
    ensures StartsWith(BeforeFirst(href, '?'), ModelPath)
  {
    var b := BeforeFirst(href, '?');
    assert forall i :: 0 <= i < |ModelPath| ==> href[i] == ModelPath[i];
    assert forall i :: 0 <= i < |ModelPath| ==> href[i] != '?';
    assert |b| >= |ModelPath|;
    assert b[..|ModelPath|] == href[..|ModelPath|];
  }

  /**
   * scraper.py lines 133-137: an href is kept only when it is present and
   * starts with `/model/`, and then becomes the site address followed by
   * the href up to its first `?`.
   */
  function NormaliseLink(href: Option<string>): (r: Option<string>)
    ensures r.Some? <==> href.Some? && StartsWith(href.value, ModelPath)
  {
    match href
    case None => None
    case Some(h) => if StartsWith(h, ModelPath) then Some(Host + BeforeFirst(h, '?')) else None
  }

  /**
   * A kept href becomes a model link: the site address followed by a prefix
   * of the href that has no `?`.
   */
  lemma NormaliseLinkShape(href: Option<string>)
    ensures var r := NormaliseLink(href);
            r.Some? ==> IsModelLink(r.value) && StartsWith(r.value, Host) && r.value[|Host|..] <= href.value
  {
    if href.Some? && StartsWith(href.value, ModelPath) {
      var h := href.value;
      var b := BeforeFirst(h, '?');
      BeforeQueryKeepsModelPath(h);
      var l := Host + b;
      assert l[..|Host|] == Host && l[|Host|..] == b;
      assert l[..|Host + ModelPath|] == Host + b[..|ModelPath|];
    }
  }

  /** The links one scroll contributes. */
  function RoundLinks(hrefs: seq<Option<string>>): set<string>
  {
    if hrefs == [] then {}
    else
      match NormaliseLink(hrefs[0])
      case Some(l) => {l} + RoundLinks(hrefs[1..])
      case None => RoundLinks(hrefs[1..])
  }

  /** A link is collected from a scroll exactly when some href of it normalises to that link. */
  lemma {:induction false} RoundLinksMembers(hrefs: seq<Option<string>>, l: string)
    ensures l in RoundLinks(hrefs) <==> exists i :: 0 <= i < |hrefs| && NormaliseLink(hrefs[i]) == Some(l)
  {
    if hrefs != [] {
      RoundLinksMembers(hrefs[1..], l);
      if exists i :: 0 <= i < |hrefs| && NormaliseLink(hrefs[i]) == Some(l) {
        var i :| 0 <= i < |hrefs| && NormaliseLink(hrefs[i]) == Some(l);
        if i > 0 {
          assert hrefs[1..][i - 1] == hrefs[i];
        }
      }
      if exists i :: 0 <= i < |hrefs[1..]| && NormaliseLink(hrefs[1..][i]) == Some(l) {
        var i :| 0 <= i < |hrefs[1..]| && NormaliseLink(hrefs[1..][i]) == Some(l);
        assert hrefs[i + 1] == hrefs[1..][i];
      }
    }
  }

  /** Every link one scroll contributes is a model link. */
  lemma RoundLinksAreModelLinks(hrefs: seq<Option<string>>)
    ensures forall l :: l in RoundLinks(hrefs) ==> IsModelLink(l)
  {
    forall l | l in RoundLinks(hrefs) ensures IsModelLink(l) {
      RoundLinksMembers(hrefs, l);
      var i :| 0 <= i < |hrefs| && NormaliseLink(hrefs[i]) == Some(l);
      NormaliseLinkShape(hrefs[i]);
    }
  }

  /** The loop of scraper.py lines 133-137 over one scroll's hrefs. */
  method AddRoundLinks(links: set<string>, hrefs: seq<Option<string>>) returns (r: set<string>)
    ensures r == links + RoundLinks(hrefs)
  {
    r := links;
    for i := 0 to |hrefs|
      invariant r == links + RoundLinks(hrefs[..i])
    {
      RoundLinksSnoc(hrefs[..i], hrefs[i]);
      assert hrefs[..i + 1] == hrefs[..i] + [hrefs[i]];
      match NormaliseLink(hrefs[i])
      case Some(l) => r := r + {l};
      case None =>
    }
    assert hrefs[..|hrefs|] == hrefs;
  }

  lemma {:induction false} RoundLinksSnoc(hrefs: seq<Option<string>>, h: Option<string>)
    ensures RoundLinks(hrefs + [h]) ==
            RoundLinks(hrefs) + (if NormaliseLink(h).Some? then {NormaliseLink(h).value} else {})
    decreases |hrefs|
  {
    if hrefs != [] {
      assert (hrefs + [h])[1..] == hrefs[1..] + [h];
      RoundLinksSnoc(hrefs[1..], h);
    } else {
      assert ([] + [h])[1..] == [];
    }
  }

  /**
   * What one pass of the scroll loop observes: the number of model cards
   * before scrolling, the page height after it and the hrefs of the cards
   * after it.
   */
  datatype Round = Round(countBefore: nat, height: int, hrefs: seq<Option<string>>)

  /** `last_height` when round `j` starts. */
  function HeightBefore(rounds: nat -> Round, h0: int, j: nat): int
  {
    if j == 0 then h0 else rounds(j - 1).height
  }

  /** Round `j` changed neither the height nor the number of cards (line 120). */
  predicate Stalled(rounds: nat -> Round, h0: int, j: nat)
  {
    rounds(j).height == HeightBefore(rounds, h0, j) && |rounds(j).hrefs| <= rounds(j).countBefore
  }

  /** `scroll_attempts` after `k` rounds: bumped by a stalled round, reset by any other. */
  function Attempts(rounds: nat -> Round, h0: int, k: nat): nat
  {
    if k == 0 then 0
    else if Stalled(rounds, h0, k - 1) then Attempts(rounds, h0, k - 1) + 1
    else 0
  }

  /** `all_model_links` after `k` rounds. */
  function Collected(rounds: nat -> Round, k: nat): set<string>
  {
    if k == 0 then {} else Collected(rounds, k - 1) + RoundLinks(rounds(k - 1).hrefs)
  }

  /** Round `j` ends the loop on line 125, before its links are added. */
  predicate StallStop(rounds: nat -> Round, h0: int, maxAttempts: nat, j: nat)
  {
    Stalled(rounds, h0, j) && Attempts(rounds, h0, j + 1) >= maxAttempts
  }

  /** Round `j` ends the loop on line 145, after its links are added. */
  predicate LimitStop(rounds: nat -> Round, limit: int, j: nat)
  {
    limit > 0 && |Collected(rounds, j + 1)| >= limit
  }

  /** The first round from `k` on that ends the loop, or `fuel` when none before it does. */
  function StopRound(rounds: nat -> Round, h0: int, maxAttempts: nat, limit: int, fuel: nat, k: nat): (r: nat)
    requires k <= fuel
    ensures k <= r <= fuel
    ensures forall i :: k <= i < r ==> !StallStop(rounds, h0, maxAttempts, i) && !LimitStop(rounds, limit, i)
    ensures r < fuel ==> StallStop(rounds, h0, maxAttempts, r) || LimitStop(rounds, limit, r)
    decreases fuel - k
  {
    if k == fuel then fuel
    else if StallStop(rounds, h0, maxAttempts, k) || LimitStop(rounds, limit, k) then k
    else StopRound(rounds, h0, maxAttempts, limit, fuel, k + 1)
  }

  /** The links the loop holds when it ends, or when `fuel` rounds have run. */
  function ScrollLinks(rounds: nat -> Round, h0: int, maxAttempts: nat, limit: int, fuel: nat): set<string>
  {
    var j := StopRound(rounds, h0, maxAttempts, limit, fuel, 0);
    if j == fuel then Collected(rounds, fuel)
    else if StallStop(rounds, h0, maxAttempts, j) then Collected(rounds, j)
    else Collected(rounds, j + 1)
  }

  /**
   * The scroll loop of scraper.py lines 100-147, run for at most `fuel`
   * rounds: `ended` says whether the loop left by one of its own `break`s.
   * The links come back as a list without duplicates, in no particular order.
   */
  method ScrapeModels(rounds: nat -> Round, h0: int, maxAttempts: nat, limit: int, fuel: nat)
    returns (links: seq<string>, ended: bool)
    ensures ended <==> StopRound(rounds, h0, maxAttempts, limit, fuel, 0) < fuel
    ensures forall l :: l in links <==> l in ScrollLinks(rounds, h0, maxAttempts, limit, fuel)
    ensures forall i, j :: 0 <= i < j < |links| ==> links[i] != links[j]
  {
    var all: set<string> := {};
    var lastHeight := h0;
    var attempts: nat := 0;
    var k: nat := 0;
    ended := false;
    ghost var stop := StopRound(rounds, h0, maxAttempts, limit, fuel, 0);
    while k < fuel
      invariant k <= stop
      invariant all == Collected(rounds, k)
      invariant attempts == Attempts(rounds, h0, k) && lastHeight == HeightBefore(rounds, h0, k)
    {
      var round := rounds(k);
      var stalled := round.height == lastHeight && |round.hrefs| <= round.countBefore;
      assert stalled == Stalled(rounds, h0, k);
      if stalled {
        attempts := attempts + 1;
        if attempts >= maxAttempts {
          StopHere(rounds, h0, maxAttempts, limit, fuel, k);
          ended := true;
          break;
        }
      } else {
        attempts := 0;
      }
      lastHeight := round.height;
      all := AddRoundLinks(all, round.hrefs);
      if limit > 0 && |all| >= limit {
        StopHere(rounds, h0, maxAttempts, limit, fuel, k);
        ended := true;
        break;
      }
      PassHere(rounds, h0, maxAttempts, limit, fuel, k);
      k := k + 1;
    }
    links := ListOf(all);
  }

  lemma StopHere(rounds: nat -> Round, h0: int, maxAttempts: nat, limit: int, fuel: nat, k: nat)
    requires k < fuel && k <= StopRound(rounds, h0, maxAttempts, limit, fuel, 0)
    requires StallStop(rounds, h0, maxAttempts, k) || LimitStop(rounds, limit, k)
    ensures StopRound(rounds, h0, maxAttempts, limit, fuel, 0) == k
  {
  }

  lemma PassHere(rounds: nat -> Round, h0: int, maxAttempts: nat, limit: int, fuel: nat, k: nat)
    requires k < fuel && k <= StopRound(rounds, h0, maxAttempts, limit, fuel, 0)
    requires !StallStop(rounds, h0, maxAttempts, k) && !LimitStop(rounds, limit, k)
    ensures k < StopRound(rounds, h0, maxAttempts, limit, fuel, 0)
  {
  }

  /** `list(s)`: every element once, in some order. */
  method ListOf(s: set<string>) returns (r: seq<string>)
    ensures forall x :: x in r <==> x in s
    ensures forall i, j :: 0 <= i < j < |r| ==> r[i] != r[j]
  {
    r := [];
    var rest := s;
    while rest != {}
      invariant rest <= s
      invariant forall x :: x in r <==> x in s && x !in rest
      invariant forall i, j :: 0 <= i < j < |r| ==> r[i] != r[j]
      decreases |rest|
    {
      var x :| x in rest;
      r := r + [x];
      rest := rest - {x};
    }
  }

  /**
   * `scroll_attempts` reaches `m` exactly when the last `m` rounds were all
   * stalled: any round that moved the page or added cards starts the count
   * again.
   */
  lemma {:induction false} AttemptsCountStalls(rounds: nat -> Round, h0: int, k: nat, m: nat)
    ensures Attempts(rounds, h0, k) >= m <==>
            m <= k && forall j :: k - m <= j < k ==> Stalled(rounds, h0, j)
  {
    if m > 0 && k > 0 {
      AttemptsCountStalls(rounds, h0, k - 1, m - 1);
    } else if m > 0 {
    }
  }

  /** Every link the crawl returns starts with the model address and has no query. */
  lemma ScrollLinksAreModelLinks(rounds: nat -> Round, h0: int, maxAttempts: nat, limit: int, fuel: nat)
    ensures forall l :: l in ScrollLinks(rounds, h0, maxAttempts, limit, fuel) ==> IsModelLink(l)
  {
    var j := StopRound(rounds, h0, maxAttempts, limit, fuel, 0);
    CollectedAreModelLinks(rounds, fuel);
    CollectedAreModelLinks(rounds, j);
    if j < fuel {
      CollectedAreModelLinks(rounds, j + 1);
    }
  }

  lemma {:induction false} CollectedAreModelLinks(rounds: nat -> Round, k: nat)
    ensures forall l :: l in Collected(rounds, k) ==> IsModelLink(l)
  {
    if k > 0 {
      CollectedAreModelLinks(rounds, k - 1);
      RoundLinksAreModelLinks(rounds(k - 1).hrefs);
    }
  }

  /**
   * When the loop ends on its own, either the last `maxAttempts` rounds were
   * all stalled, or a positive limit was met by the links it returns.
   */
  lemma ScrollStopsForAReason(rounds: nat -> Round, h0: int, maxAttempts: nat, limit: int, fuel: nat, j: nat)
    requires j < fuel && j == StopRound(rounds, h0, maxAttempts, limit, fuel, 0)
    ensures (forall i: nat :: j + 1 - maxAttempts <= i <= j ==> Stalled(rounds, h0, i)) ||
            (limit > 0 && |ScrollLinks(rounds, h0, maxAttempts, limit, fuel)| >= limit)
  {
    if StallStop(rounds, h0, maxAttempts, j) {
      AttemptsCountStalls(rounds, h0, j + 1, maxAttempts);
    } else {
      assert ScrollLinks(rounds, h0, maxAttempts, limit, fuel) == Collected(rounds, j + 1);
    }
  }

  /** The breadcrumb text that is not a tag (line 240). */
  const CatalogueRoot: string := "3D Models"

  predicate NoDup(s: seq<string>)
  {
    forall i, j :: 0 <= i < j < |s| ==> s[i] != s[j]
  }

  /** `tag.text.strip()` for every tag element, in order. */
  function Stripped(texts: seq<string>): seq<string>
  {
    seq(|texts|, i requires 0 <= i < |texts| => Strip(texts[i]))
  }

  /** The stripped texts that may become tags. */
  function Eligible(texts: seq<string>, excluded: set<string>): set<string>
  {
    set t | t in texts && t != [] && t !in excluded
  }

  /**
   * The tag loops of lines 238-246 over the stripped texts: each is
   * appended unless it is empty, excluded or already a tag.
   */
  function AddTags(tags: seq<string>, texts: seq<string>, excluded: set<string>): (r: seq<string>)
    ensures |tags| <= |r| && r[..|tags|] == tags
    ensures forall i :: |tags| <= i < |r| ==> r[i] != [] && r[i] !in excluded && r[i] !in tags
    decreases |texts|
  {
    if texts == [] then tags
    else
      var t := texts[0];
      var next := if t != [] && t !in excluded && t !in tags then tags + [t] else tags;
      var r := AddTags(next, texts[1..], excluded);
      assert r[..|tags|] == r[..|next|][..|tags|];
      assert forall i :: |tags| <= i < |next| ==> r[i] == t;
      r
  }

  /** Appending fresh tags keeps the list free of duplicates. */
  lemma {:induction false} AddTagsNoDup(tags: seq<string>, texts: seq<string>, excluded: set<string>)
    requires NoDup(tags)
    ensures NoDup(AddTags(tags, texts, excluded))
    decreases |texts|
  {
    if texts != [] {
      var t := texts[0];
      var next := if t != [] && t !in excluded && t !in tags then tags + [t] else tags;
      AddTagsNoDup(next, texts[1..], excluded);
    }
  }

  /** The tags afterwards are the tags before and the eligible texts, nothing else. */
  lemma {:induction false} AddTagsMembers(tags: seq<string>, texts: seq<string>, excluded: set<string>)
    ensures forall x :: x in AddTags(tags, texts, excluded) <==> x in tags || x in Eligible(texts, excluded)
    decreases |texts|
  {
    if texts != [] {
      var t := texts[0];
      var next := if t != [] && t !in excluded && t !in tags then tags + [t] else tags;
      AddTagsMembers(next, texts[1..], excluded);
      assert texts == [t] + texts[1..];
    }
  }

  /** Index of the first occurrence of `x` in `texts`, or `|texts|`. */
  function FirstIndex(texts: seq<string>, x: string): (k: nat)
    ensures k <= |texts|
    ensures k < |texts| ==> texts[k] == x
    ensures forall i :: 0 <= i < k ==> texts[i] != x
  {
    if texts == [] then 0
    else if texts[0] == x then 0
    else 1 + FirstIndex(texts[1..], x)
  }

  /** Tags added by one loop come in the order of their first appearance. */
  lemma {:induction false} AddTagsFirstAppearance(tags: seq<string>, texts: seq<string>, excluded: set<string>, p: nat, q: nat)
    requires |tags| <= p < q < |AddTags(tags, texts, excluded)|
    ensures FirstIndex(texts, AddTags(tags, texts, excluded)[p]) < FirstIndex(texts, AddTags(tags, texts, excluded)[q])
    decreases |texts|
  {
    var r := AddTags(tags, texts, excluded);
    assert texts != [];
    var t := texts[0];
    var next := if t != [] && t !in excluded && t !in tags then tags + [t] else tags;
    assert r == AddTags(next, texts[1..], excluded);
    assert t != [] && t !in excluded ==> t in next;
    if p < |next| {
      assert r[p] == r[..|next|][p] == t;
      assert r[q] != t;
    } else {
      AddTagsFirstAppearance(next, texts[1..], excluded, p, q);
      assert r[p] != t && r[q] != t;
    }
  }

  lemma AddTagsFresh(tags: seq<string>, texts: seq<string>, excluded: set<string>, i: nat)
    requires |tags| <= i < |AddTags(tags, texts, excluded)|
    ensures AddTags(tags, texts, excluded)[i] !in tags
    ensures AddTags(tags, texts, excluded)[i] != []
    ensures AddTags(tags, texts, excluded)[i] !in excluded
  {
  }

  /** The tags of a page: breadcrumbs other than `3D Models`, then attributes. */
  function PageTags(breadcrumbs: seq<string>, attributes: seq<string>): seq<string>
  {
    AddTags(AddTags([], Stripped(breadcrumbs), {CatalogueRoot}), Stripped(attributes), {})
  }

  /**
   * A page's tags hold no duplicate and no empty string, and are exactly the
   * non-empty stripped texts, with `3D Models` left out of the breadcrumbs
   * only.
   */
  lemma PageTagsShape(breadcrumbs: seq<string>, attributes: seq<string>)
    ensures NoDup(PageTags(breadcrumbs, attributes))
    ensures forall i :: 0 <= i < |PageTags(breadcrumbs, attributes)| ==> PageTags(breadcrumbs, attributes)[i] != []
    ensures forall x :: x in PageTags(breadcrumbs, attributes) <==>
                        x in Eligible(Stripped(breadcrumbs), {CatalogueRoot}) || x in Eligible(Stripped(attributes), {})
  {
    var sb := Stripped(breadcrumbs);
    var sa := Stripped(attributes);
    var b := AddTags([], sb, {CatalogueRoot});
    var r := PageTags(breadcrumbs, attributes);
    AddTagsNoDup([], sb, {CatalogueRoot});
    AddTagsNoDup(b, sa, {});
    AddTagsMembers([], sb, {CatalogueRoot});
    AddTagsMembers(b, sa, {});
    forall i | 0 <= i < |r| ensures r[i] != [] {
      if i < |b| {
        AddTagsFresh([], sb, {CatalogueRoot}, i);
        assert r[i] == r[..|b|][i];
      } else {
        AddTagsFresh(b, sa, {}, i);
      }
    }
  }

  /** `3D Models` is dropped from the breadcrumbs but kept as an attribute. */
  lemma CatalogueRootOnlyFromBreadcrumbs(breadcrumbs: seq<string>, attributes: seq<string>)
    ensures CatalogueRoot !in AddTags([], Stripped(breadcrumbs), {CatalogueRoot})
    ensures CatalogueRoot in Stripped(attributes) ==> CatalogueRoot in PageTags(breadcrumbs, attributes)
  {
    AddTagsMembers([], Stripped(breadcrumbs), {CatalogueRoot});
    PageTagsShape(breadcrumbs, attributes);
    assert CatalogueRoot != [];
  }

  /** The extension `splitext` finds in the URL's basename, cut at its first `?` (line 253). */
  function UrlExtension(url: string): (ext: string)
    ensures ext != [] ==> ext[0] == '.'
    ensures Sep !in ext && '?' !in ext
  {
    var name := BeforeFirst(Basename(url), '?');
    var parts := SplitExt(name);
    SuffixAvoids(parts.0, parts.1, '?');
    parts.1
  }

  lemma SuffixAvoids(x: string, y: string, c: char)
    requires c !in x + y
    ensures c !in y
  {
    assert forall i :: 0 <= i < |y| ==> y[i] == (x + y)[|x| + i];
  }

  /** The image types the fallback pattern of line 255 knows, in the order it tries them. */
  const ImageKinds: seq<string> := ["jpg", "jpeg", "png", "webp"]

  /** `(\?|$)` at index `j`: a `?`, the end, or a final newline. */
  predicate EndsMatch(url: string, j: nat)
  {
    j == |url| || (j < |url| && url[j] == '?') || (j == |url| - 1 && url[j] == '\n')
  }

  /** The type `k`, in any case, follows the dot at `i` and ends the match. */
  predicate KindMatch(url: string, i: nat, k: string)
  {
    i + 1 + |k| <= |url| && Lower(url[i + 1..i + 1 + |k|]) == k && EndsMatch(url, i + 1 + |k|)
  }

  /** The pattern matches at `j`: a dot followed by one of the known types. */
  predicate MatchAt(url: string, j: nat)
  {
    j < |url| && url[j] == '.' && exists k :: k in ImageKinds && KindMatch(url, j, k)
  }

  /** The first of `kinds` that, after the dot at `i`, matches case-insensitively and ends the match. */
  function KindAt(url: string, i: nat, kinds: seq<string>): (r: Option<string>)
    ensures r.Some? ==> r.value in kinds && KindMatch(url, i, r.value)
    ensures r.None? ==> forall k :: k in kinds ==> !KindMatch(url, i, k)
  {
    if kinds == [] then None
    else
      var k := kinds[0];
      var j := i + 1 + |k|;
      if j <= |url| && Lower(url[i + 1..j]) == k && EndsMatch(url, j) then Some(k)
      else
        assert forall k' :: k' in kinds ==> k' == k || k' in kinds[1..];
        KindAt(url, i, kinds[1..])
  }

  /** `re.search(r'\.(jpg|jpeg|png|webp)(\?|$)', url, re.IGNORECASE)` from index `i`: the leftmost match. */
  function SearchKind(url: string, i: nat): (r: Option<string>)
    ensures r.Some? ==> r.value in ImageKinds
    ensures r.Some? ==> exists j :: i <= j < |url| && url[j] == '.' && KindMatch(url, j, r.value) &&
                                    forall q :: i <= q < j ==> !MatchAt(url, q)
    ensures r.None? ==> forall q :: i <= q ==> !MatchAt(url, q)
    decreases |url| - i
  {
    if i >= |url| then None
    else if url[i] == '.' && KindAt(url, i, ImageKinds).Some? then KindAt(url, i, ImageKinds)
    else
      assert !MatchAt(url, i);
      SearchKind(url, i + 1)
  }

  /** At most one of the known types matches after a given dot, so the order they are tried in does not matter. */
  lemma KindMatchUnique(url: string, i: nat, k1: string, k2: string)
    requires k1 in ImageKinds && k2 in ImageKinds
    requires KindMatch(url, i, k1) && KindMatch(url, i, k2)
    ensures k1 == k2
  {
    // Two different types already differ in their first or third letter.
    LettersAt(url, i, k1);
    LettersAt(url, i, k2);
  }

  lemma LettersAt(url: string, i: nat, k: string)
    requires KindMatch(url, i, k) && |k| >= 3
    ensures LowerChar(url[i + 1]) == k[0] && LowerChar(url[i + 3]) == k[2]
  {
    assert Lower(url[i + 1..i + 1 + |k|])[0] == LowerChar(url[i + 1]);
    assert Lower(url[i + 1..i + 1 + |k|])[2] == LowerChar(url[i + 3]);
  }

  /**
   * The extension an image is saved under (lines 253-259): the URL's own
   * extension, else the lower-cased type the pattern finds, else `.jpg`.
   */
  function ImageExtension(url: string): (ext: string)
    ensures ext != [] && ext[0] == '.'
  {
    var ext := UrlExtension(url);
    if ext != [] then ext
    else
      match SearchKind(url, 0)
      case Some(k) =>
        KindExtension(k);
        "." + k
      case None =>
        KindExtension("jpg");
        ".jpg"
  }

  /**
   * The extension is the URL's own when it has one, and otherwise one of
   * the four known types; either way it holds no `/` and no `?`.
   */
  lemma ImageExtensionShape(url: string)
    ensures UrlExtension(url) != [] ==> ImageExtension(url) == UrlExtension(url)
    ensures UrlExtension(url) == [] ==> ImageExtension(url)[1..] in ImageKinds
    ensures Sep !in ImageExtension(url) && '?' !in ImageExtension(url)
  {
    if UrlExtension(url) == [] {
      match SearchKind(url, 0)
      case Some(k) => KindExtension(k);
      case None => KindExtension("jpg");
    }
  }

  lemma KindExtension(k: string)
    requires k in ImageKinds
    ensures ("." + k)[1..] == k && ("." + k)[0] == '.'
    ensures Sep !in "." + k && '?' !in "." + k
  {
  }

  /** `f"image_{img_idx + 1}{original_ext}"` (line 261). */
  function ImageFileName(idx: nat, ext: string): string
  {
    "image_" + NatToString(idx + 1) + ext
  }

  /**
   * Two images of one model never get the same file name, whatever their
   * extensions, since an extension starts with a dot and a number never does.
   */
  lemma ImageNamesDistinct(i: nat, j: nat, e1: string, e2: string)
    requires i != j
    requires e1 != [] && e1[0] == '.' && e2 != [] && e2[0] == '.'
    ensures ImageFileName(i, e1) != ImageFileName(j, e2)
  {
    var n1 := NatToString(i + 1);
    var n2 := NatToString(j + 1);
    var a := ImageFileName(i, e1);
    var b := ImageFileName(j, e2);
    if |n1| == |n2| {
      if n1 == n2 {
        NatToStringInjective(i + 1, j + 1);
      } else {
        assert a[6..6 + |n1|] == n1 && b[6..6 + |n2|] == n2;
      }
    } else if |n1| < |n2| {
      assert a[6 + |n1|] == e1[0] && b[6 + |n1|] == n2[|n1|];
      assert a[6 + |n1|] != b[6 + |n1|];
    } else {
      assert b[6 + |n2|] == e2[0] && a[6 + |n2|] == n1[|n2|];
      assert a[6 + |n2|] != b[6 + |n2|];
    }
  }

  /** An image's file name is a single path segment. */
  lemma ImageFileNameIsOneSegment(idx: nat, url: string)
    ensures Sep !in ImageFileName(idx, ImageExtension(url))
  {
    var n := NatToString(idx + 1);
    ImageExtensionShape(url);
    assert Sep !in "image_";
    assert Sep !in n by {
      forall i | 0 <= i < |n| ensures n[i] != Sep { assert IsDigit(n[i]); }
    }
  }

  /** What came of one download once its button was clicked. */
  datatype Outcome =
    | NotVerified               // not verified in time, or an error other than `shutil.Error`
    | Moved(temp: string)       // verified at `temp` and moved into the files folder
    | KeptInTemp(temp: string)  // verified at `temp`, but the move raised `shutil.Error`

  /**
   * One pass of the individual-download loop (lines 336-391), told apart by
   * whether it reached line 346, which binds `file_name_for_log`.
   */
  datatype Attempt =
    | Named(outcome: Outcome)  // the file name was read; any later error counts as `NotVerified`
    | Unnamed                  // no name element, or an error other than a stale element, before line 346
    | StaleUnnamed             // a stale element before line 346

  /** The path one download appends to `downloaded_filepaths` (lines 299-314, 357-372). */
  function RecordedPath(filesDir: string, o: Outcome): (r: Option<string>)
    ensures r.Some? <==> !o.NotVerified?
  {
    match o
    case NotVerified => None
    case Moved(temp) => Some(Join(filesDir, Basename(temp)))
    case KeptInTemp(temp) => Some(temp)
  }

  /** The paths one pass records: none unless its file was verified. */
  function AttemptPaths(filesDir: string, a: Attempt): seq<string>
  {
    if a.Named? && RecordedPath(filesDir, a.outcome).Some? then [RecordedPath(filesDir, a.outcome).value] else []
  }

  predicate Verified(a: Attempt)
  {
    a.Named? && !a.outcome.NotVerified?
  }

  /**
   * The paths the individual downloads record, in order, as the loop is
   * written. `named` says whether an earlier pass bound `file_name_for_log`.
   * When a stale element comes before any pass did, the handler of line 384
   * reads the unbound name; the `UnboundLocalError` leaves the loop for the
   * handler of line 398, and no later button is tried.
   */
  function IndividualPaths(filesDir: string, attempts: seq<Attempt>, named: bool): (r: seq<string>)
    ensures |r| <= |attempts|
  {
    if attempts == [] then []
    else
      match attempts[0]
      case StaleUnnamed => if named then IndividualPaths(filesDir, attempts[1..], named) else []
      case Unnamed => IndividualPaths(filesDir, attempts[1..], named)
      case Named(_) => AttemptPaths(filesDir, attempts[0]) + IndividualPaths(filesDir, attempts[1..], true)
  }

  /** The paths the individual downloads would record if every button were tried: a stale element only skips its own. */
  function IntendedPaths(filesDir: string, attempts: seq<Attempt>): seq<string>
  {
    if attempts == [] then [] else AttemptPaths(filesDir, attempts[0]) + IntendedPaths(filesDir, attempts[1..])
  }

  /** Pass `i` ends the loop: a stale element, with no name read before it. */
  predicate Aborts(attempts: seq<Attempt>, named: bool, i: nat)
    requires i < |attempts|
  {
    !named && attempts[i].StaleUnnamed? && forall j :: 0 <= j < i ==> attempts[j].Unnamed?
  }

  /** The number of passes the loop makes. */
  function LoopEnd(attempts: seq<Attempt>, named: bool): (k: nat)
    ensures k <= |attempts|
    ensures k < |attempts| ==> Aborts(attempts, named, k)
    ensures forall i :: 0 <= i < |attempts| && Aborts(attempts, named, i) ==> k == i
  {
    if attempts == [] then 0
    else
      assert forall i :: 0 < i < |attempts| ==> attempts[1..][i - 1] == attempts[i];
      assert attempts[0].Unnamed? ==> forall i :: 0 < i < |attempts| ==>
               (Aborts(attempts, named, i) <==> Aborts(attempts[1..], named, i - 1)) by {
        if attempts[0].Unnamed? {
          forall i | 0 < i < |attempts| { AbortsShift(attempts, named, i); }
        }
      }
      match attempts[0]
      case StaleUnnamed => if named then 1 + LoopEnd(attempts[1..], named) else 0
      case Unnamed => 1 + LoopEnd(attempts[1..], named)
      case Named(_) => 1 + LoopEnd(attempts[1..], true)
  }

  lemma AbortsShift(attempts: seq<Attempt>, named: bool, i: nat)
    requires 0 < i < |attempts| && attempts[0].Unnamed?
    ensures Aborts(attempts, named, i) <==> Aborts(attempts[1..], named, i - 1)
  {
    assert forall j :: 0 < j < |attempts| ==> attempts[1..][j - 1] == attempts[j];
    if Aborts(attempts[1..], named, i - 1) {
      forall j | 0 <= j < i ensures attempts[j].Unnamed? {
        if j > 0 {
          assert attempts[1..][j - 1].Unnamed?;
        }
      }
    }
  }

  /** The loop as written records what every pass before the one that ends it would record. */
  lemma {:induction false} IndividualPathsPrefix(filesDir: string, attempts: seq<Attempt>, named: bool)
    ensures IndividualPaths(filesDir, attempts, named) ==
            IntendedPaths(filesDir, attempts[..LoopEnd(attempts, named)])
  {
    if attempts != [] {
      var k := LoopEnd(attempts, named);
      var rest := attempts[1..];
      match attempts[0]
      case StaleUnnamed =>
        if named {
          IndividualPathsPrefix(filesDir, rest, named);
          assert attempts[..k][1..] == rest[..k - 1];
        } else {
          assert attempts[..k] == [];
        }
      case Unnamed =>
        IndividualPathsPrefix(filesDir, rest, named);
        assert attempts[..k][1..] == rest[..k - 1];
      case Named(_) =>
        IndividualPathsPrefix(filesDir, rest, true);
        assert attempts[..k][1..] == rest[..k - 1];
    }
  }

  /** Every button tried: a path is recorded exactly when some pass verified it. */
  lemma {:induction false} IntendedPathsMembers(filesDir: string, attempts: seq<Attempt>, p: string)
    ensures p in IntendedPaths(filesDir, attempts) <==>
            exists i :: 0 <= i < |attempts| && attempts[i].Named? && RecordedPath(filesDir, attempts[i].outcome) == Some(p)
  {
    if attempts != [] {
      var rest := attempts[1..];
      IntendedPathsMembers(filesDir, rest, p);
      assert forall i :: 0 < i < |attempts| ==> rest[i - 1] == attempts[i];
      if p in IntendedPaths(filesDir, rest) {
        var i :| 0 <= i < |rest| && rest[i].Named? && RecordedPath(filesDir, rest[i].outcome) == Some(p);
        assert attempts[i + 1] == rest[i];
      }
    }
  }

  /** Every button tried: nothing is recorded exactly when no pass was verified. */
  lemma {:induction false} IntendedPathsEmpty(filesDir: string, attempts: seq<Attempt>)
    ensures IntendedPaths(filesDir, attempts) == [] <==> forall i :: 0 <= i < |attempts| ==> !Verified(attempts[i])
  {
    if attempts != [] {
      IntendedPathsEmpty(filesDir, attempts[1..]);
      assert forall i :: 1 <= i < |attempts| ==> attempts[i] == attempts[1..][i - 1];
    }
  }

  /**
   * A stale first button and a verified second one: the loop as written
   * records nothing, where trying every button records the second file.
   */
  lemma StaleFirstButtonStopsLoop(filesDir: string, temp: string)
    ensures IndividualPaths(filesDir, [StaleUnnamed, Named(Moved(temp))], false) == []
    ensures IntendedPaths(filesDir, [StaleUnnamed, Named(Moved(temp))]) == [Join(filesDir, Basename(temp))]
  {
    var a := [StaleUnnamed, Named(Moved(temp))];
    var b := [Named(Moved(temp))];
    assert a[1..] == b && b[1..] == [];
    assert AttemptPaths(filesDir, b[0]) == [Join(filesDir, Basename(temp))];
    assert IntendedPaths(filesDir, b) == [Join(filesDir, Basename(temp))] + IntendedPaths(filesDir, []);
  }

  /**
   * The paths a model's file downloads record: the one "Download All"
   * records, or, when it records nothing, those the individual downloads do
   * (line 326).
   */
  function DownloadPaths(filesDir: string, all: Outcome, individual: seq<Attempt>): seq<string>
  {
    match RecordedPath(filesDir, all)
    case Some(p) => [p]
    case None => IndividualPaths(filesDir, individual, false)
  }

  /**
   * A model counts as downloaded exactly when "Download All" or one of the
   * individual passes the loop reaches was verified; the individual
   * downloads are recorded only when "Download All" was not.
   */
  lemma DownloadSucceeds(filesDir: string, all: Outcome, individual: seq<Attempt>)
    ensures DownloadPaths(filesDir, all, individual) != [] <==>
            !all.NotVerified? || exists i :: 0 <= i < LoopEnd(individual, false) && Verified(individual[i])
    ensures !all.NotVerified? ==> |DownloadPaths(filesDir, all, individual)| == 1
  {
    var k := LoopEnd(individual, false);
    IndividualPathsPrefix(filesDir, individual, false);
    IntendedPathsEmpty(filesDir, individual[..k]);
    assert forall i :: 0 <= i < k ==> individual[..k][i] == individual[i];
  }

  /**
   * A recorded path is the verified file's name under the files folder, or,
   * when the move raised `shutil.Error`, the verified path itself.
   */
  lemma RecordedPathPlace(filesDir: string, o: Outcome)
    requires !o.NotVerified?
    ensures o.Moved? ==> Basename(RecordedPath(filesDir, o).value) == Basename(o.temp) &&
                         StartsWith(RecordedPath(filesDir, o).value, filesDir)
    ensures o.KeptInTemp? ==> RecordedPath(filesDir, o).value == o.temp
  {
    if o.Moved? {
      JoinBasename(filesDir, o.temp);
    }
  }

  /** The `model_data` dictionary of lines 187-196; `grams` is not part of this model. */
  class ModelData {
    var title: string
    var description: string
    var images: seq<string>
    var tags: seq<string>
    var downloadedFilepaths: seq<string>
    var downloadedImageFilepaths: seq<string>
    var url: string

    constructor (modelUrl: string)
      ensures title == "N/A" && description == "N/A"
      ensures images == [] && tags == []
      ensures downloadedFilepaths == [] && downloadedImageFilepaths == []
      ensures url == modelUrl
    {
      title := "N/A";
      description := "N/A";
      images := [];
      tags := [];
      downloadedFilepaths := [];
      downloadedImageFilepaths := [];
      url := modelUrl;
    }

    /**
     * Lines 212-219: the images already recorded and the `src` of every
     * gallery image that has a non-empty one, each once and in no particular
     * order, as `list(set(...))` leaves them.
     */
    method CollectImages(srcs: seq<Option<string>>)
      modifies this`images
      ensures forall x :: x in images <==>
        x in old(images) || exists j :: 0 <= j < |srcs| && srcs[j] == Some(x) && x != []
      ensures forall i, j :: 0 <= i < j < |images| ==> images[i] != images[j]
    {
      var found: seq<string> := images;
      for i := 0 to |srcs|
        invariant forall x :: x in found <==>
          x in old(images) || exists j :: 0 <= j < i && srcs[j] == Some(x) && x != []
      {
        match srcs[i]
        case Some(src) =>
          if src != [] {
            found := found + [src];
          }
        case None =>
      }
      images := ListOf(set x | x in found);
    }

    /**
     * Lines 207-208 and 223-224: the stripped text of each element that was
     * found; a missing element leaves `N/A`.
     */
    method SetSummary(titleElement: Option<string>, descriptionElement: Option<string>)
      modifies this`title, this`description
      ensures title == if titleElement.Some? then Strip(titleElement.value) else "N/A"
      ensures description == if descriptionElement.Some? then Strip(descriptionElement.value) else "N/A"
    {
      title := "N/A";
      description := "N/A";
      if titleElement.Some? {
        title := Strip(titleElement.value);
      }
      if descriptionElement.Some? {
        description := Strip(descriptionElement.value);
      }
    }

    /** One of the tag loops of lines 238-246. */
    method AddTagTexts(texts: seq<string>, excluded: set<string>)
      modifies this`tags
      ensures tags == AddTags(old(tags), Stripped(texts), excluded)
    {
      ghost var ts := Stripped(texts);
      for i := 0 to |texts|
        invariant AddTags(tags, ts[i..], excluded) == AddTags(old(tags), ts, excluded)
      {
        assert ts[i..][0] == ts[i] && ts[i..][1..] == ts[i + 1..];
        var t := Strip(texts[i]);
        if t != [] && t !in excluded && t !in tags {
          tags := tags + [t];
        }
      }
      assert ts[|texts|..] == [];
    }

    /** Lines 238-246: breadcrumbs other than `3D Models`, then attributes. */
    method CollectTags(breadcrumbs: seq<string>, attributes: seq<string>)
      modifies this`tags
      ensures tags == AddTags(AddTags(old(tags), Stripped(breadcrumbs), {CatalogueRoot}), Stripped(attributes), {})
      ensures old(tags) == [] ==> tags == PageTags(breadcrumbs, attributes)
    {
      AddTagTexts(breadcrumbs, {CatalogueRoot});
      AddTagTexts(attributes, {});
    }

    /**
     * Lines 251-268: each image is fetched under its `image_<n><ext>` name
     * by `download`, which stands for `download_image` and gives the saved
     * path or nothing; the saved paths replace the recorded ones.
     */
    method DownloadImages(download: (string, string) -> Option<string>)
      modifies this`downloadedImageFilepaths
      ensures downloadedImageFilepaths == SavedImages(images, download, 0)
    {
      var saved: seq<string> := [];
      var urls := images;
      for i := 0 to |urls|
        invariant saved + SavedImages(urls, download, i) == SavedImages(urls, download, 0)
      {
        var result := download(urls[i], ImageRequestName(urls[i], i));
        SavedImagesStep(urls, download, i, saved, result);
        if result.Some? {
          saved := saved + [result.value];
        }
      }
      downloadedImageFilepaths := saved;
    }

    /**
     * Lines 283-391: the file downloads of a model, "Download All" first,
     * then the individual buttons until a stale element ends the loop.
     */
    method RecordDownloads(filesDir: string, all: Outcome, individual: seq<Attempt>)
      modifies this`downloadedFilepaths
      ensures downloadedFilepaths == old(downloadedFilepaths) + DownloadPaths(filesDir, all, individual)
    {
      var success := false;
      match RecordedPath(filesDir, all) {
        case Some(p) =>
          downloadedFilepaths := downloadedFilepaths + [p];
          success := true;
        case None =>
      }
      if !success {
        var named := false;
        for j := 0 to |individual|
          invariant downloadedFilepaths + IndividualPaths(filesDir, individual[j..], named) ==
                    old(downloadedFilepaths) + IndividualPaths(filesDir, individual, false)
        {
          assert individual[j..][0] == individual[j] && individual[j..][1..] == individual[j + 1..];
          match individual[j] {
            case StaleUnnamed =>
              if !named {
                // The handler's `UnboundLocalError` leaves the loop.
                break;
              }
            case Unnamed =>
            case Named(o) =>
              named := true;
              match RecordedPath(filesDir, o) {
                case Some(p) =>
                  downloadedFilepaths := downloadedFilepaths + [p];
                  success := true;
                case None =>
              }
          }
        }
        assert individual[|individual|..] == [];
      }
    }
  }

  /** The name the `idx`-th image of the page is saved under. */
  function ImageRequestName(url: string, idx: nat): string
  {
    ImageFileName(idx, ImageExtension(url))
  }

  /** One turn of the image loop keeps `saved` a prefix of the whole result. */
  lemma SavedImagesStep(images: seq<string>, download: (string, string) -> Option<string>, i: nat,
                        saved: seq<string>, result: Option<string>)
    requires i < |images| && result == download(images[i], ImageRequestName(images[i], i))
    requires saved + SavedImages(images, download, i) == SavedImages(images, download, 0)
    ensures (if result.Some? then saved + [result.value] else saved) + SavedImages(images, download, i + 1)
            == SavedImages(images, download, 0)
  {
  }

  /** The paths `download` saves for the images from index `i` on, in order. */
  function SavedImages(images: seq<string>, download: (string, string) -> Option<string>, i: nat): seq<string>
    decreases |images| - i
  {
    if i >= |images| then []
    else
      match download(images[i], ImageRequestName(images[i], i))
      case Some(p) => [p] + SavedImages(images, download, i + 1)
      case None => SavedImages(images, download, i + 1)
  }

  /**
   * At most one path per image is recorded, and every recorded path is what
   * `download` gave for one of the images under that image's name.
   */
  lemma {:induction false} SavedImagesFromDownloads(images: seq<string>, download: (string, string) -> Option<string>,
                                                    i: nat)
    requires i <= |images|
    ensures |SavedImages(images, download, i)| <= |images| - i
    ensures forall p :: p in SavedImages(images, download, i) ==>
              exists j :: i <= j < |images| && download(images[j], ImageRequestName(images[j], j)) == Some(p)
    decreases |images| - i
  {
    if i < |images| {
      var result := download(images[i], ImageRequestName(images[i], i));
      var rest := SavedImages(images, download, i + 1);
      SavedImagesFromDownloads(images, download, i + 1);
      assert SavedImages(images, download, i) == if result.Some? then [result.value] + rest else rest;
      forall p | p in SavedImages(images, download, i)
        ensures exists j :: i <= j < |images| && download(images[j], ImageRequestName(images[j], j)) == Some(p)
      {
        if p !in rest {
          assert result == Some(p);
        }
      }
    }
  }
}
