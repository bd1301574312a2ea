/**
 * The URL list file of main.py: `save_urls_to_file` writes one URL per line
 * (lines 22-31) and `load_urls_from_file` reads back every non-blank line,
 * stripped (lines 34-47). The file itself is a string; a missing or
 * unreadable file is a value of `UrlFile`.
 */
module UrlList {
  import opened Text

  /** What `open(filename)` finds. */
  datatype UrlFile = Missing | Unreadable | Contents(text: string)

  predicate IsLineBreak(c: char)
  {
    c == '\n' || c == '\r'
  }

  predicate NoLineBreak(s: string)
  {
    forall i :: 0 <= i < |s| ==> !IsLineBreak(s[i])
  }

  /** The text the saving loop writes: every URL followed by `\n`. */
  function UrlText(urls: seq<string>): (text: string)
    ensures urls == [] <==> text == []
    ensures urls != [] ==> text[|text| - 1] == '\n'
  {
    if urls == [] then [] else urls[0] + "\n" + UrlText(urls[1..])
  }

  /** The loop of main.py lines 27-28, writing into `text`. */
  method SaveUrls(urls: seq<string>) returns (text: string)
    ensures text == UrlText(urls)
  {
    text := [];
    for i := 0 to |urls|
      invariant text + UrlText(urls[i..]) == UrlText(urls)
    {
      assert urls[i..] == [urls[i]] + urls[i + 1..];
      text := text + (urls[i] + "\n");
    }
    assert urls[|urls|..] == [];
  }

  /** Index of the first line break in `s`, or `|s|`. */
  function LineEnd(s: string): (k: nat)
    ensures k <= |s| && NoLineBreak(s[..k])
    ensures k < |s| ==> IsLineBreak(s[k])
  {
    if s == [] || IsLineBreak(s[0]) then 0
    else
      var k := 1 + LineEnd(s[1..]);
      assert s[..k] == [s[0]] + s[1..][..k - 1];
      k
  }

  /**
   * The lines a text-mode file yields, without their terminators. Universal
   * newlines end a line at `\n`, at `\r` and at `\r\n`; the last of these
   * leaves an empty piece, which the reader drops like any blank line.
   */
  function Lines(s: string): (r: seq<string>)
    ensures forall i :: 0 <= i < |r| ==> NoLineBreak(r[i])
    decreases |s|
  {
    if s == [] then []
    else
      var k := LineEnd(s);
      if k == |s| then [s] else [s[..k]] + Lines(s[k + 1..])
  }

  /** Some line of `lines` strips to `x`. */
  predicate StripsTo(lines: seq<string>, x: string)
  {
    exists i :: 0 <= i < |lines| && Strip(lines[i]) == x
  }

  lemma StripsToCons(lines: seq<string>, x: string)
    requires lines != []
    ensures StripsTo(lines, x) <==> Strip(lines[0]) == x || StripsTo(lines[1..], x)
  {
    if StripsTo(lines, x) && Strip(lines[0]) != x {
      var i :| 0 <= i < |lines| && Strip(lines[i]) == x;
      assert lines[1..][i - 1] == lines[i];
    }
    if StripsTo(lines[1..], x) {
      var i :| 0 <= i < |lines| - 1 && Strip(lines[1..][i]) == x;
      assert lines[1..][i] == lines[i + 1];
    }
  }

  /**
   * `[line.strip() for line in lines if line.strip()]`: exactly the lines
   * with something besides whitespace, stripped.
   */
  function KeepStripped(lines: seq<string>): (r: seq<string>)
    ensures |r| <= |lines|
    ensures forall i :: 0 <= i < |r| ==> r[i] != [] && Strip(r[i]) == r[i]
    ensures forall x :: x in r <==> x != [] && StripsTo(lines, x)
  {
    if lines == [] then []
    else
      var s := Strip(lines[0]);
      var rest := KeepStripped(lines[1..]);
      var r := if s == [] then rest else [s] + rest;
      KeepMembers(lines, rest, r);
      StripOfStripped(s);
      KeepEntries(s, rest, r);
      r
  }

  /** One line of the comprehension: a line is kept, stripped, exactly when it is not blank. */
  lemma KeepMembers(lines: seq<string>, rest: seq<string>, r: seq<string>)
    requires lines != []
    requires forall x :: x in rest <==> x != [] && StripsTo(lines[1..], x)
    requires r == if Strip(lines[0]) == [] then rest else [Strip(lines[0])] + rest
    ensures forall x :: x in r <==> x != [] && StripsTo(lines, x)
  {
    forall x { StripsToCons(lines, x); }
  }

  lemma KeepEntries(s: string, rest: seq<string>, r: seq<string>)
    requires Strip(s) == s
    requires forall i :: 0 <= i < |rest| ==> rest[i] != [] && Strip(rest[i]) == rest[i]
    requires r == if s == [] then rest else [s] + rest
    ensures forall i :: 0 <= i < |r| ==> r[i] != [] && Strip(r[i]) == r[i]
  {
    assert forall i :: 0 < i <= |rest| ==> ([s] + rest)[i] == rest[i - 1];
  }

  /** The filter keeps the order of the lines: it works on each line by itself. */
  lemma {:induction false} KeepStrippedConcat(a: seq<string>, b: seq<string>)
    ensures KeepStripped(a + b) == KeepStripped(a) + KeepStripped(b)
  {
    if a == [] {
      assert a + b == b;
    } else {
      assert (a + b)[0] == a[0] && (a + b)[1..] == a[1..] + b;
      KeepStrippedConcat(a[1..], b);
    }
  }

  /** `load_urls_from_file`: no URLs when the file is missing or cannot be read. */
  function LoadUrls(file: UrlFile): (urls: seq<string>)
    ensures !file.Contents? ==> urls == []
    ensures forall i :: 0 <= i < |urls| ==> urls[i] != [] && Strip(urls[i]) == urls[i]
  {
    match file
    case Contents(text) => KeepStripped(Lines(text))
    case _ => []
  }

  /** A URL the file format carries unchanged. */
  predicate Storable(url: string)
  {
    url != [] && Strip(url) == url && NoLineBreak(url)
  }

  lemma {:induction false} LinesOfUrlText(urls: seq<string>)
    requires forall i :: 0 <= i < |urls| ==> NoLineBreak(urls[i])
    ensures Lines(UrlText(urls)) == urls
    decreases |urls|
  {
    if urls != [] {
      var u := urls[0];
      var rest := UrlText(urls[1..]);
      var s := u + "\n" + rest;
      assert s[..|u|] == u && s[|u|] == '\n' && s[|u| + 1..] == rest;
      LineEndAt(s, |u|);
      LinesOfUrlText(urls[1..]);
    }
  }

  lemma LineEndAt(s: string, k: nat)
    requires k < |s| && NoLineBreak(s[..k]) && IsLineBreak(s[k])
    ensures LineEnd(s) == k
  {
    assert forall i :: 0 <= i < k ==> s[..k][i] == s[i];
  }

  lemma {:induction false} KeepStrippedOfStored(urls: seq<string>)
    requires forall i :: 0 <= i < |urls| ==> Storable(urls[i])
    ensures KeepStripped(urls) == urls
  {
    if urls != [] {
      StorableTail(urls);
      KeepStrippedOfStored(urls[1..]);
      KeepStoredHead(urls);
    }
  }

  lemma StorableTail(urls: seq<string>)
    requires urls != [] && forall i :: 0 <= i < |urls| ==> Storable(urls[i])
    ensures forall i :: 0 <= i < |urls| - 1 ==> Storable(urls[1..][i])
  {
    forall i | 0 <= i < |urls| - 1 ensures Storable(urls[1..][i]) { assert urls[1..][i] == urls[i + 1]; }
  }

  lemma KeepStoredHead(urls: seq<string>)
    requires urls != [] && Storable(urls[0]) && KeepStripped(urls[1..]) == urls[1..]
    ensures KeepStripped(urls) == urls
  {
    assert [urls[0]] + urls[1..] == urls;
  }

  /**
   * Loading what was saved gives the same list back, provided every URL is
   * non-empty, has no surrounding whitespace and holds no line break.
   */
  lemma LoadSavedUrls(urls: seq<string>)
    requires forall i :: 0 <= i < |urls| ==> Storable(urls[i])
    ensures LoadUrls(Contents(UrlText(urls))) == urls
  {
    LinesOfUrlText(urls);
    KeepStrippedOfStored(urls);
  }
}
