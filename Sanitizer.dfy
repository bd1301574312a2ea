/**
 * `sanitize_filename`: turns arbitrary page text into a file or folder
 * name by four passes over the string, each written as its own function:
 * drop every character outside `[\w\s.-]` and strip whitespace, turn each
 * run of whitespace into one `_`, strip `_` and `-` from both ends, and
 * keep at most the first 100 characters.
 */
module Sanitizer {
  import opened Text

  const MaxLength: nat := 100

  /** The characters the first pass keeps. */
  predicate Allowed(c: char)
  {
    IsWord(c) || IsSpace(c) || c == '.' || c == '-'
  }

  /** The characters a sanitized name is made of. */
  predicate Safe(c: char)
  {
    IsWord(c) || c == '.' || c == '-'
  }

  predicate Edge(c: char)
  {
    c == '_' || c == '-'
  }

  predicate AllAllowed(s: string)
  {
    forall i :: 0 <= i < |s| ==> Allowed(s[i])
  }

  predicate AllSafe(s: string)
  {
    forall i :: 0 <= i < |s| ==> Safe(s[i])
  }

  predicate NoSpace(s: string)
  {
    forall i :: 0 <= i < |s| ==> !IsSpace(s[i])
  }

  /** `re.sub(r'[^\w\s.-]', '', s)`: keeps the allowed characters, in order. */
  function DropDisallowed(s: string): (r: string)
    ensures |r| <= |s|
    ensures AllAllowed(r)
    ensures AllAllowed(s) ==> r == s
  {
    if s == [] then []
    else if Allowed(s[0]) then [s[0]] + DropDisallowed(s[1..])
    else DropDisallowed(s[1..])
  }

  /** `re.sub(r'\s+', '_', s)`: every maximal run of whitespace becomes one `_`. */
  function CollapseSpaces(s: string): (r: string)
    ensures |r| <= |s| && NoSpace(r)
    ensures AllAllowed(s) ==> AllSafe(r)
    ensures NoSpace(s) ==> r == s
    ensures s != [] && !IsSpace(s[0]) ==> r != [] && r[0] == s[0]
    decreases |s|
  {
    if s == [] then []
    else if IsSpace(s[0]) then
      var t := TrimSpaceLeft(s[1..]);
      SpaceStep(s, |s| - |t|, CollapseSpaces(t));
      ['_'] + CollapseSpaces(t)
    else
      WordStep(s, CollapseSpaces(s[1..]));
      [s[0]] + CollapseSpaces(s[1..])
  }

  /** A run of whitespace at the front of `s` becomes one `_` before the rest. */
  lemma SpaceStep(s: string, k: nat, c: string)
    requires 0 < k <= |s| && IsSpace(s[0])
    requires |c| <= |s| - k && NoSpace(c) && (AllAllowed(s[k..]) ==> AllSafe(c))
    ensures |['_'] + c| <= |s| && NoSpace(['_'] + c)
    ensures AllAllowed(s) ==> AllSafe(['_'] + c)
  {
    SuffixKeepsAllowed(s, k);
    ConsKeeps('_', c);
  }

  /** A character other than whitespace at the front of `s` is kept before the rest. */
  lemma WordStep(s: string, c: string)
    requires s != [] && !IsSpace(s[0])
    requires |c| <= |s| - 1 && NoSpace(c) && (AllAllowed(s[1..]) ==> AllSafe(c))
    requires NoSpace(s[1..]) ==> c == s[1..]
    ensures |[s[0]] + c| <= |s| && NoSpace([s[0]] + c)
    ensures AllAllowed(s) ==> AllSafe([s[0]] + c)
    ensures NoSpace(s) ==> [s[0]] + c == s
  {
    SuffixKeepsAllowed(s, 1);
    SuffixKeepsNoSpace(s, 1);
    ConsKeeps(s[0], c);
    if NoSpace(s) {
      assert [s[0]] + s[1..] == s;
    }
  }

  lemma SuffixKeepsAllowed(s: string, k: nat)
    requires k <= |s|
    ensures AllAllowed(s) ==> AllAllowed(s[k..])
  {
    if AllAllowed(s) {
      forall i | 0 <= i < |s| - k ensures Allowed(s[k..][i]) { assert s[k..][i] == s[k + i]; }
    }
  }

  lemma SuffixKeepsNoSpace(s: string, k: nat)
    requires k <= |s|
    ensures NoSpace(s) ==> NoSpace(s[k..])
  {
    if NoSpace(s) {
      forall i | 0 <= i < |s| - k ensures !IsSpace(s[k..][i]) { assert s[k..][i] == s[k + i]; }
    }
  }

  lemma ConsKeeps(c: char, r: string)
    requires !IsSpace(c) && NoSpace(r)
    ensures NoSpace([c] + r)
    ensures (Allowed(c) && AllSafe(r)) ==> AllSafe([c] + r)
  {
    assert forall i :: 0 < i <= |r| ==> ([c] + r)[i] == r[i - 1];
  }

  /** `s.strip('_-')`, left end. */
  function TrimEdgeLeft(s: string): (r: string)
    ensures |r| <= |s| && r == s[|s| - |r|..]
    ensures forall i :: 0 <= i < |s| - |r| ==> Edge(s[i])
    ensures r != [] ==> !Edge(r[0])
  {
    if s != [] && Edge(s[0]) then
      EdgeLeftStep(s, TrimEdgeLeft(s[1..]));
      TrimEdgeLeft(s[1..])
    else s
  }

  lemma EdgeLeftStep(s: string, r: string)
    requires s != [] && Edge(s[0])
    requires |r| <= |s| - 1 && r == s[1..][|s| - 1 - |r|..]
    requires forall i :: 0 <= i < |s| - 1 - |r| ==> Edge(s[1..][i])
    ensures r == s[|s| - |r|..]
    ensures forall i :: 0 <= i < |s| - |r| ==> Edge(s[i])
  {
    forall i | 1 <= i < |s| - |r| ensures Edge(s[i]) { assert s[i] == s[1..][i - 1]; }
  }

  /** `s.strip('_-')`, right end. */
  function TrimEdgeRight(s: string): (r: string)
    ensures |r| <= |s| && r == s[..|r|]
    ensures forall i :: |r| <= i < |s| ==> Edge(s[i])
    ensures r != [] ==> !Edge(r[|r| - 1])
  {
    if s != [] && Edge(s[|s| - 1]) then TrimEdgeRight(s[..|s| - 1]) else s
  }

  /**
   * The filter works character by character: it keeps an allowed character,
   * drops any other, and never reorders what it keeps.
   */
  lemma {:induction false} DropDisallowedConcat(a: string, b: string)
    ensures DropDisallowed(a + b) == DropDisallowed(a) + DropDisallowed(b)
    ensures a != [] ==> DropDisallowed([a[0]]) == if Allowed(a[0]) then [a[0]] else []
  {
    if a == [] {
      assert a + b == b;
    } else {
      assert (a + b)[0] == a[0] && (a + b)[1..] == a[1..] + b;
      DropDisallowedConcat(a[1..], b);
    }
  }

  /** Characters other than whitespace pass the joining step unchanged. */
  lemma {:induction false} CollapseKeepsWord(a: string, b: string)
    requires NoSpace(a)
    ensures CollapseSpaces(a + b) == a + CollapseSpaces(b)
  {
    if a == [] {
      assert a + b == b;
    } else {
      var s := a + b;
      assert s[0] == a[0] && !IsSpace(a[0]);
      assert s[1..] == a[1..] + b;
      assert NoSpace(a[1..]) by {
        forall i | 0 <= i < |a| - 1 ensures !IsSpace(a[1..][i]) { assert a[1..][i] == a[i + 1]; }
      }
      CollapseKeepsWord(a[1..], b);
      SeqConsAssoc(a, CollapseSpaces(b));
    }
  }

  lemma SeqConsAssoc(a: string, c: string)
    requires a != []
    ensures [a[0]] + (a[1..] + c) == a + c
  {
    assert [a[0]] + a[1..] == a;
  }

  /** A maximal run of whitespace becomes exactly one `_`. */
  lemma CollapseRun(w: string, b: string)
    requires w != [] && forall i :: 0 <= i < |w| ==> IsSpace(w[i])
    requires b != [] ==> !IsSpace(b[0])
    ensures CollapseSpaces(w + b) == ['_'] + CollapseSpaces(b)
  {
    HeadTail(w, b);
    assert forall i :: 0 <= i < |w| - 1 ==> IsSpace(w[1..][i]) by {
      forall i | 0 <= i < |w| - 1 ensures IsSpace(w[1..][i]) { assert w[1..][i] == w[i + 1]; }
    }
    TrimSpaceRun(w[1..], b);
  }

  lemma HeadTail(a: string, b: string)
    requires a != []
    ensures (a + b)[0] == a[0] && (a + b)[1..] == a[1..] + b
  {
  }

  lemma TrimSpaceRun(w: string, b: string)
    requires forall i :: 0 <= i < |w| ==> IsSpace(w[i])
    requires b != [] ==> !IsSpace(b[0])
    ensures TrimSpaceLeft(w + b) == b
  {
    assert (w + b)[|w|..] == b;
  }

  /** Whitespace between two words turns into a single `_`; the words stay as they are. */
  lemma CollapseBetweenWords(x: string, w: string, y: string)
    requires NoSpace(x) && NoSpace(y)
    requires w != [] && forall i :: 0 <= i < |w| ==> IsSpace(w[i])
    ensures CollapseSpaces(x + w + y) == x + "_" + y
  {
    SeqAssoc(x, w, y);
    CollapseKeepsWord(x, w + y);
    assert y != [] ==> !IsSpace(y[0]);
    CollapseRun(w, y);
    assert CollapseSpaces(y) == y;
    SeqAssoc(x, "_", y);
  }

  lemma SeqAssoc(a: string, b: string, c: string)
    ensures a + (b + c) == a + b + c
  {
  }

  /** The name before truncation: filtered, stripped, joined and edge-trimmed. */
  function Untruncated(name: string): (r: string)
    ensures |r| <= |name|
    ensures r != [] ==> !Edge(r[0]) && !Edge(r[|r| - 1])
  {
    TrimEdgeRight(TrimEdgeLeft(CollapseSpaces(Strip(DropDisallowed(name)))))
  }

  /** `sanitize_filename(name)`, utils.py lines 16-21. */
  function Sanitize(name: string): (r: string)
    ensures r <= Untruncated(name)
    ensures |Untruncated(name)| <= MaxLength ==> r == Untruncated(name)
    ensures |Untruncated(name)| > MaxLength ==> |r| == MaxLength
  {
    var t := Untruncated(name);
    t[..if |t| < MaxLength then |t| else MaxLength]
  }

  lemma StripKeepsAllowed(s: string)
    requires AllAllowed(s)
    ensures AllAllowed(Strip(s))
  {
    var l := TrimSpaceLeft(s);
    SuffixKeepsAllowed(s, |s| - |l|);
  }

  lemma TrimEdgeLeftSafe(s: string)
    requires AllSafe(s)
    ensures AllSafe(TrimEdgeLeft(s))
  {
    var r := TrimEdgeLeft(s);
    forall i | 0 <= i < |r| ensures Safe(r[i]) {
      assert r[i] == s[|s| - |r| + i];
    }
  }

  lemma TrimEdgeRightSafe(s: string)
    requires AllSafe(s)
    ensures AllSafe(TrimEdgeRight(s))
  {
    var r := TrimEdgeRight(s);
    forall i | 0 <= i < |r| ensures Safe(r[i]) {
      assert r[i] == s[i];
    }
  }

  /** Every character left before truncation is safe. */
  lemma UntruncatedSafe(name: string)
    ensures AllSafe(Untruncated(name))
  {
    var joined := CollapseSpaces(Strip(DropDisallowed(name)));
    StripKeepsAllowed(DropDisallowed(name));
    TrimEdgeLeftSafe(joined);
    TrimEdgeRightSafe(TrimEdgeLeft(joined));
  }

  /** A safe character is not whitespace, `/`, `:` or `?`. */
  lemma SafeIsPlain(c: char)
    requires Safe(c)
    ensures !IsSpace(c) && c != '/' && c != ':' && c != '?'
  {
    if IsWord(c) { WordIsNotSpace(c); }
  }

  /**
   * The result is at most 100 characters long and every character of it is
   * a word character, `.` or `-`: no whitespace, and in particular no `/`,
   * `:` or `?`.
   */
  lemma SanitizeSafe(name: string)
    ensures |Sanitize(name)| <= MaxLength
    ensures AllSafe(Sanitize(name))
    ensures NoSpace(Sanitize(name))
    ensures '/' !in Sanitize(name) && ':' !in Sanitize(name) && '?' !in Sanitize(name)
  {
    var t := Untruncated(name);
    UntruncatedSafe(name);
    var r := Sanitize(name);
    assert r == t[..|r|];
    forall i | 0 <= i < |r| ensures Safe(r[i]) && !IsSpace(r[i]) && r[i] != '/' && r[i] != ':' && r[i] != '?' {
      assert r[i] == t[i];
      SafeIsPlain(r[i]);
    }
  }

  /** A non-empty result never starts with `_` or `-`. */
  lemma SanitizeStart(name: string)
    ensures Sanitize(name) != [] ==> !Edge(Sanitize(name)[0])
  {
    var t := Untruncated(name);
    if Sanitize(name) != [] {
      assert Sanitize(name)[0] == t[0];
      assert t[0] == TrimEdgeLeft(CollapseSpaces(Strip(DropDisallowed(name))))[0];
    }
  }

  /** A name made of safe characters with no edge character at either end. */
  predicate Settled(s: string)
  {
    AllSafe(s) && (s != [] ==> !Edge(s[0]) && !Edge(s[|s| - 1]))
  }

  /**
   * On a name of safe characters that does not start with an edge
   * character, only the right-hand edge trimming has any effect before
   * truncation.
   */
  lemma UntruncatedOfSafe(s: string)
    requires AllSafe(s)
    requires s != [] ==> !Edge(s[0])
    ensures Untruncated(s) == TrimEdgeRight(s)
  {
    forall i | 0 <= i < |s| ensures Allowed(s[i]) && !IsSpace(s[i]) {
      SafeIsPlain(s[i]);
    }
    assert DropDisallowed(s) == s;
    StripOfStripped(s);
    assert CollapseSpaces(s) == s;
    assert TrimEdgeLeft(s) == s;
  }

  /**
   * On a name of at most 100 safe characters that does not start with an
   * edge character, only the right-hand edge trimming has any effect.
   */
  lemma SanitizeOfSafe(s: string)
    requires AllSafe(s) && |s| <= MaxLength
    requires s != [] ==> !Edge(s[0])
    ensures Sanitize(s) == TrimEdgeRight(s)
  {
    UntruncatedOfSafe(s);
    TakeAll(Untruncated(s));
  }

  lemma TakeAll(u: string)
    ensures u[..|u|] == u
  {
  }

  /** A settled name of at most 100 characters is its own sanitization. */
  lemma SanitizeFixedPoint(s: string)
    requires Settled(s) && |s| <= MaxLength
    ensures Sanitize(s) == s
  {
    SanitizeOfSafe(s);
  }

  /**
   * Sanitizing a sanitized name only removes a trailing `_` or `-` that
   * truncation may have left.
   */
  lemma SanitizeTwice(name: string)
    ensures Sanitize(Sanitize(name)) == TrimEdgeRight(Sanitize(name))
  {
    SanitizeSafe(name);
    SanitizeStart(name);
    SanitizeOfSafe(Sanitize(name));
  }

  /**
   * Truncation happens after the edges are stripped, so a result can end in
   * `_`: this 101-character name keeps its `_` as the 100th character.
   */
  lemma SanitizeMayEndWithUnderscore(s: string, c: char)
    requires Settled(s) && s != [] && |s| == MaxLength - 1
    requires Safe(c) && !Edge(c)
    ensures Sanitize(s + "_" + [c]) == s + "_"
  {
    var name := s + "_" + [c];
    assert AllSafe(name) && !Edge(name[0]) by {
      forall i | 0 <= i < |name| ensures Safe(name[i]) {
        if i < |s| { assert name[i] == s[i]; }
      }
    }
    UntruncatedOfSafe(name);
    assert Untruncated(name) == name by {
      assert TrimEdgeRight(name) == name;
    }
    assert name[..MaxLength] == s + "_";
  }

  /** `..` passes through unchanged: the result is not always a harmless path segment. */
  lemma SanitizeKeepsDotDot()
    ensures Sanitize("..") == ".."
  {
    SanitizeFixedPoint("..");
  }
}
