/**
 * The three `os.path` operations the program relies on, as POSIX defines
 * them (`posixpath`): `basename`, two-argument `join` and `splitext`.
 */
module Paths {
  import opened Text

  const Sep: char := '/'

  /** `s.rfind(c)`: index of the last `c`, or -1. */
  function LastIndexOf(s: string, c: char): (r: int)
    ensures -1 <= r < |s|
    ensures r >= 0 ==> s[r] == c
    ensures forall i :: r < i < |s| ==> s[i] != c
  {
    if s == [] then -1
    else if s[|s| - 1] == c then |s| - 1
    else LastIndexOf(s[..|s| - 1], c)
  }

  /** `os.path.basename(p)`: what follows the last separator. */
  function Basename(p: string): (r: string)
    ensures Sep !in r
    ensures |r| <= |p| && r == p[|p| - |r|..]
    ensures |r| < |p| ==> p[|p| - |r| - 1] == Sep
  {
    p[LastIndexOf(p, Sep) + 1..]
  }

  /** `os.path.join(a, b)` with two arguments. */
  function Join(a: string, b: string): (r: string)
    ensures !StartsWith(b, [Sep]) ==> StartsWith(r, a)
  {
    if StartsWith(b, [Sep]) then b
    else if a == [] || a[|a| - 1] == Sep then a + b
    else a + [Sep] + b
  }

  /** Joining a name that holds no separator and taking the basename gives the name back. */
  lemma BasenameOfJoin(a: string, b: string)
    requires Sep !in b
    ensures Basename(Join(a, b)) == b
  {
    var j := Join(a, b);
    var k := LastIndexOf(j, Sep);
    assert j[|j| - |b|..] == b;
    if |b| < |j| {
      assert j[|j| - |b| - 1] == Sep;
    }
    assert forall i :: |j| - |b| <= i < |j| ==> j[i] == b[i - (|j| - |b|)];
    assert k == |j| - |b| - 1;
  }

  /** A basename never starts with the separator. */
  lemma BasenameNotRooted(p: string)
    ensures !StartsWith(Basename(p), [Sep])
  {
    var b := Basename(p);
    assert b != [] ==> b[..1] == [b[0]] && b[0] != Sep;
  }

  /** Moving a path's name under `dir` keeps the name and lands inside `dir`. */
  lemma JoinBasename(dir: string, p: string)
    ensures Basename(Join(dir, Basename(p))) == Basename(p)
    ensures StartsWith(Join(dir, Basename(p)), dir)
  {
    BasenameNotRooted(p);
    BasenameOfJoin(dir, Basename(p));
  }

  /**
   * `os.path.splitext(p)`: the extension starts at the last dot of the
   * basename, provided some character before that dot in the basename is
   * not a dot (so ".bashrc" and "..." have no extension).
   */
  function SplitExt(p: string): (r: (string, string))
    ensures r.0 + r.1 == p
    ensures r.1 != [] ==> r.1[0] == '.' && Sep !in r.1 && '.' !in r.1[1..]
    ensures r.1 == [] <==> !HasExt(p)
  {
    var sepIndex := LastIndexOf(p, Sep);
    var dotIndex := LastIndexOf(p, '.');
    if HasExt(p) then
      assert p[..dotIndex] + p[dotIndex..] == p;
      (p[..dotIndex], p[dotIndex..])
    else
      (p, [])
  }

  /** Whether `splitext` finds an extension in `p`. */
  predicate HasExt(p: string)
  {
    var sepIndex := LastIndexOf(p, Sep);
    var dotIndex := LastIndexOf(p, '.');
    dotIndex > sepIndex && exists i :: sepIndex < i < dotIndex && p[i] != '.'
  }
}
