/** Paths as text: taken apart at the slashes, and put together again. */
module PathStrings {
  import opened Paths

  /** The text up to the first slash, as a length. */
  function UpToSlash(s: string): (n: nat)
    ensures n <= |s| && (n < |s| ==> s[n] == '/') && '/' !in s[..n]
  {
    if s == [] || s[0] == '/' then 0
    else
      var n := UpToSlash(s[1..]);
      assert s[..n + 1] == [s[0]] + s[1..][..n];
      n + 1
  }

  /** `strings.Split(s, "/")` */
  function Split(s: string): (parts: Path)
    ensures parts != []
    decreases |s|
  {
    var n := UpToSlash(s);
    if n == |s| then [s] else [s[..n]] + Split(s[n + 1..])
  }

  /** What the traversal has put together when it gets to a path. */
  function Rooted(parts: Path): string {
    if parts == [] then "" else Rooted(parts[..|parts| - 1]) + "/" + parts[|parts| - 1]
  }

  /** `strings.TrimPrefix(s, "/")` */
  function TrimSlash(s: string): string {
    if s != [] && s[0] == '/' then s[1..] else s
  }

  lemma RootedStep(p: Path, k: string)
    ensures Rooted(p + [k]) == Rooted(p) + "/" + k
  {
    assert (p + [k])[..|p|] == p;
  }

  lemma NoParts()
    ensures Rooted([]) == ""
  {
  }

  lemma {:induction false} RootedFront(k: string, p: Path)
    ensures Rooted([k] + p) == "/" + k + Rooted(p)
    decreases |p|
  {
    var all := [k] + p;
    if p == [] {
      assert all == [k] && all[..0] == [];
    } else {
      assert all[..|all| - 1] == [k] + p[..|p| - 1];
      RootedFront(k, p[..|p| - 1]);
    }
  }

  /** Splitting a path and walking down its parts gives the path back. */
  lemma {:induction false} SplitRooted(s: string)
    ensures TrimSlash(Rooted(Split(s))) == s && Rooted(Split(s)) == "/" + s
    decreases |s|
  {
    hide UpToSlash, Rooted;
    var n := UpToSlash(s);
    if n == |s| {
      RootedFront(s, []);
      NoParts();
      assert [s] + [] == [s];
    } else {
      var rest := s[n + 1..];
      SplitRooted(rest);
      RootedFront(s[..n], Split(rest));
      assert "/" + s[..n] + ("/" + rest) == "/" + s;
    }
  }

  lemma SplitInjective(f: string, g: string)
    requires Split(f) == Split(g)
    ensures f == g
  {
    SplitRooted(f);
    SplitRooted(g);
  }
}
