/** The names in a layer: how a path becomes one, and what `GetFSFromLayers` reads back. */
module TarNames {
  import opened Paths
  import opened PathStrings

  predicate Component(c: Name) {
    c != "" && c != "." && c != ".." && '/' !in c
  }

  predicate Named(p: Path) {
    forall k :: 0 <= k < |p| ==> Component(p[k])
  }

  /** The text of a cleaned absolute path. */
  function Text(p: Path): string {
    if p == [] then "/" else Rooted(p)
  }

  /** What `filepath.Clean` leaves of the parts of a path. */
  function Squeezed(rooted: bool, parts: Path): Path {
    if parts == [] then []
    else
      var c, before := parts[|parts| - 1], Squeezed(rooted, parts[..|parts| - 1]);
      if c == "" || c == "." then before
      else if c != ".." then before + [c]
      else if before != [] && before[|before| - 1] != ".." then before[..|before| - 1]
      else if rooted then before
      else before + [".."]
  }

  /** `filepath.Clean` */
  function Clean(s: string): string {
    if s != [] && s[0] == '/' then Text(Squeezed(true, Split(s)))
    else
      var parts := Squeezed(false, Split(s));
      if parts == [] then "." else TrimSlash(Rooted(parts))
  }

  /** `filepath.Join` of two elements, the first of which is not empty. */
  function Join(a: string, b: string): string {
    if b == "" then Clean(a) else Clean(a + "/" + b)
  }

  /** `strings.TrimLeft(s, "/")` */
  function TrimSlashes(s: string): string {
    if s != [] && s[0] == '/' then TrimSlashes(s[1..]) else s
  }

  function CommonPrefix(p: Path, q: Path): (n: nat)
    ensures n <= |p| && n <= |q| && p[..n] == q[..n] && (n < |p| && n < |q| ==> p[n] != q[n])
    ensures n == |p| <==> p <= q
  {
    if p == [] || q == [] || p[0] != q[0] then 0
    else
      var n := CommonPrefix(p[1..], q[1..]);
      assert p[..n + 1] == [p[0]] + p[1..][..n] && q[..n + 1] == [q[0]] + q[1..][..n];
      n + 1
  }

  /** `filepath.Rel` of two cleaned absolute paths: climbs to the common ancestor, and descends. */
  function Rel(base: Path, target: Path): string {
    var n := CommonPrefix(base, target);
    var parts := seq(|base| - n, i => "..") + target[n..];
    if parts == [] then "." else TrimSlash(Rooted(parts))
  }

  predicate LeadsOut(rel: string) {
    rel == ".." || "../" <= rel
  }

  /** `tarPathFromRoot`, for cleaned paths. */
  function TarPathFromRoot(root: Path, path: Path): string {
    if path == root then "/"
    else if root != [] && !LeadsOut(Rel(root, path)) then TrimSlashes(Rel(root, path))
    else TrimSlashes(Text(path))
  }

  /** The name of the entry for a path; those of directories end with a slash. */
  function EntryName(root: Path, path: Path, isDir: bool): string {
    var name := TarPathFromRoot(root, path);
    if isDir && (name == [] || name[|name| - 1] != '/') then name + "/" else name
  }

  /** Where an entry is extracted to. */
  function Extracted(root: Path, name: string): string {
    Join(Text(root), Clean(name))
  }

  // ---------------------------------------------------------------------------------------------
  // Splitting what was put together
  // ---------------------------------------------------------------------------------------------

  lemma {:induction false} SplitComponent(c: Name)
    requires '/' !in c
    ensures Split(c) == [c]
  {
    assert UpToSlash(c) == |c|;
  }

  lemma {:induction false} SlashAppended(a: string, b: string)
    ensures UpToSlash(a + b) == if UpToSlash(a) < |a| then UpToSlash(a) else |a| + UpToSlash(b)
    decreases |a|
  {
    if a == [] {
      assert a + b == b;
    } else if a[0] != '/' {
      assert (a + b)[1..] == a[1..] + b;
      SlashAppended(a[1..], b);
    }
  }

  lemma {:induction false} SplitJoined(a: string, b: string)
    ensures Split(a + "/" + b) == Split(a) + Split(b)
    decreases |a|
  {
    hide UpToSlash;
    var s, n := a + "/" + b, UpToSlash(a);
    SlashAppended(a, "/" + b);
    assert a + ("/" + b) == s;
    SlashFirst(b);
    if n < |a| {
      assert s[..n] == a[..n] && s[n + 1..] == a[n + 1..] + "/" + b;
      SplitJoined(a[n + 1..], b);
    } else {
      assert s[..n] == a && s[n + 1..] == b;
    }
  }

  lemma SlashFirst(b: string)
    ensures UpToSlash("/" + b) == 0
  {
  }

  lemma {:induction false} SplitText(p: Path)
    requires Named(p) && p != []
    ensures Split(Rooted(p)) == [""] + p && Split(TrimSlash(Rooted(p))) == p
    ensures Rooted(p)[..1] == "/" && Rooted(p) == "/" + TrimSlash(Rooted(p)) && TrimSlash(Rooted(p)) != ""
    ensures TrimSlash(Rooted(p))[0] != '/'
    decreases |p|
  {
    hide Split, UpToSlash;
    var c, up := p[0], p[1..];
    assert p == [c] + up;
    RootedFront(c, up);
    SplitComponent(c);
    SplitNothing();
    if up == [] {
      NoParts();
      assert Rooted(p) == "/" + c;
      SplitJoined("", c);
      assert "" + "/" + c == "/" + c;
    } else {
      SplitText(up);
      var rest := TrimSlash(Rooted(up));
      assert Rooted(p) == "/" + (c + "/" + rest);
      SplitJoined(c, rest);
      SplitJoined("", c + "/" + rest);
      assert "" + "/" + (c + "/" + rest) == Rooted(p);
    }
  }

  lemma SplitNothing()
    ensures Split("") == [""]
  {
  }

  lemma {:induction false} SqueezedAppend(rooted: bool, before: Path, p: Path)
    requires Named(p)
    ensures Squeezed(rooted, before + p) == Squeezed(rooted, before) + p
    decreases |p|
  {
    if p == [] {
      assert before + p == before;
    } else {
      assert (before + p)[..|before + p| - 1] == before + p[..|p| - 1];
      SqueezedAppend(rooted, before, p[..|p| - 1]);
    }
  }

  lemma SqueezedEmpty(rooted: bool, before: Path)
    ensures Squeezed(rooted, []) == [] && Squeezed(rooted, before + [""]) == Squeezed(rooted, before)
  {
    assert (before + [""])[..|before|] == before;
  }

  /** A relative name, with or without a slash at the end, cleans to itself. */
  lemma CleanRelative(p: Path)
    requires Named(p) && p != []
    ensures var s := TrimSlash(Rooted(p)); Clean(s) == s && Clean(s + "/") == s
  {
    hide Split, UpToSlash, Squeezed, Rooted;
    var s := TrimSlash(Rooted(p));
    SplitText(p);
    SqueezedAppend(false, [], p);
    SqueezedEmpty(false, []);
    assert [] + p == p;
    SplitJoined(s, "");
    assert s + "/" + "" == s + "/";
    SplitNothing();
    SqueezedEmpty(false, p);
  }

  lemma CleanRoot()
    ensures Clean("/") == "/"
  {
    SplitJoined("", "");
    assert "" + "/" + "" == "/";
    SplitNothing();
    assert [""] + [""] == ["", ""] && ["", ""][..1] == [""] && [""][..0] == [];
  }

  /** Joining the root and a relative name puts the components together. */
  lemma JoinRelative(root: Path, p: Path)
    requires Named(root) && Named(p) && p != []
    ensures Join(Text(root), TrimSlash(Rooted(p))) == Text(root + p)
  {
    hide Split, UpToSlash, Squeezed, Rooted;
    var name := TrimSlash(Rooted(p));
    SplitText(p);
    SplitJoined(Text(root), name);
    SplitNothing();
    SqueezedEmpty(true, []);
    assert [] + [""] == [""];
    if root == [] {
      SplitJoined("", "");
      assert "" + "/" + "" == "/";
      SqueezedEmpty(true, [""]);
      SqueezedAppend(true, [""] + [""], p);
    } else {
      SplitText(root);
      assert [""] + root + p == [""] + (root + p);
      SqueezedAppend(true, [""], root + p);
      assert (Text(root) + "/" + name)[0] == Rooted(root)[..1][0];
    }
    assert Squeezed(true, Split(Text(root) + "/" + name)) == root + p;
  }

  lemma JoinRoot(root: Path)
    requires Named(root)
    ensures Join(Text(root), "/") == Text(root) && Join(Text(root), ".") == Text(root)
  {
    hide Split, UpToSlash, Squeezed, Rooted;
    var s := Text(root) + "/" + "/";
    SplitJoined(Text(root), "/");
    SplitJoined("", "");
    assert "" + "/" + "" == "/";
    SplitNothing();
    SqueezedEmpty(true, []);
    assert [] + [""] == [""];
    SqueezedEmpty(true, [""]);
    if root == [] {
      SqueezedEmpty(true, [""] + [""]);
      SqueezedEmpty(true, [""] + [""] + [""]);
      assert [""] + [""] + ([""] + [""]) == [""] + [""] + [""] + [""];
    } else {
      SplitText(root);
      SqueezedAppend(true, [""], root);
      SqueezedEmpty(true, [""] + root);
      SqueezedEmpty(true, [""] + root + [""]);
      assert [""] + root + ([""] + [""]) == [""] + root + [""] + [""];
      assert s[0] == Rooted(root)[..1][0];
    }
    assert Squeezed(true, Split(s)) == root;
    JoinDot(root);
  }

  lemma JoinDot(root: Path)
    requires Named(root)
    ensures Join(Text(root), ".") == Text(root)
  {
    hide Split, UpToSlash, Squeezed, Rooted;
    var s := Text(root) + "/" + ".";
    SplitJoined(Text(root), ".");
    SplitComponent(".");
    SplitJoined("", "");
    assert "" + "/" + "" == "/";
    SplitNothing();
    SqueezedEmpty(true, []);
    assert [] + [""] == [""];
    SqueezedEmpty(true, [""]);
    if root == [] {
      SqueezedDot(true, [""] + [""]);
    } else {
      SplitText(root);
      SqueezedAppend(true, [""], root);
      SqueezedDot(true, [""] + root);
      assert s[0] == Rooted(root)[..1][0];
    }
    assert Squeezed(true, Split(s)) == root;
  }

  lemma SqueezedDot(rooted: bool, before: Path)
    ensures Squeezed(rooted, before + ["."]) == Squeezed(rooted, before)
  {
    assert (before + ["."])[..|before|] == before;
  }

  // ---------------------------------------------------------------------------------------------
  // Names decode back
  // ---------------------------------------------------------------------------------------------

  lemma TrimOnce(s: string)
    requires s != "" && s[0] != '/'
    ensures TrimSlashes("/" + s) == s && TrimSlashes(s) == s
  {
    assert ("/" + s)[1..] == s;
  }

  /** The relative path from an ancestor is what comes after it. */
  lemma RelBelow(root: Path, p: Path)
    requires Named(p) && root < p
    ensures Rel(root, p) == TrimSlash(Rooted(p[|root|..])) && !LeadsOut(Rel(root, p))
  {
    hide Split, Rooted;
    var rest := p[|root|..];
    assert CommonPrefix(root, p) == |root|;
    assert seq(|root| - |root|, i => "..") + rest == rest;
    SplitText(rest);
    FirstPart(TrimSlash(Rooted(rest)), rest);
  }

  lemma FirstPart(s: string, parts: Path)
    requires parts != [] && Split(s) == parts && Component(parts[0])
    ensures !LeadsOut(s)
  {
    if s == ".." {
      SplitComponent("..");
    } else if "../" <= s {
      SplitComponent("..");
      assert s == ".." + "/" + s[3..];
      SplitJoined("..", s[3..]);
    }
  }

  /** The relative path to anything else leads out of the root. */
  lemma RelBeside(root: Path, p: Path)
    requires Named(root) && Named(p) && !(root <= p)
    ensures LeadsOut(Rel(root, p))
  {
    hide Rooted, CommonPrefix;
    var n := CommonPrefix(root, p);
    assert n < |root|;
    var ups := seq(|root| - n, i => "..");
    var parts := ups + p[n..];
    assert parts[0] == ".." && parts == [".."] + parts[1..];
    ClimbsFirst(parts[1..]);
  }

  lemma ClimbsFirst(rest: Path)
    ensures LeadsOut(TrimSlash(Rooted([".."] + rest)))
  {
    RootedFront("..", rest);
    if rest == [] {
      NoParts();
      assert Rooted([".."] + rest) == "/" + "..";
    } else {
      assert rest == [rest[0]] + rest[1..];
      RootedFront(rest[0], rest[1..]);
      var tail := rest[0] + Rooted(rest[1..]);
      assert Rooted([".."] + rest) == "/" + ("../" + tail);
    }
  }

  /**
   * Names decode back exactly at or under the root: the path that an entry is extracted to is the path
   * that it was made from. A path beside the root comes back below it.
   */
  lemma NamesDecode(root: Path, p: Path, isDir: bool)
    requires Named(root) && Named(p)
    ensures Extracted(root, EntryName(root, p, isDir)) == if root <= p then Text(p) else Text(root + p)
    ensures Extracted(root, EntryName(root, p, isDir)) == Text(p) <==> root <= p
  {
    hide Rooted, Clean, Join, Rel, TrimSlashes, LeadsOut;
    if p == root {
      CleanRoot();
      JoinRoot(root);
    } else if p == [] {
      RelBeside(root, p);
      NothingTrimmed();
      CleanRoot();
      JoinRoot(root);
      TextApart(root, p);
      assert root + p == root && "" + "/" == "/";
      assert EntryName(root, p, isDir) == if isDir then "/" else "";
    } else {
      var rest := if root <= p then p[|root|..] else p;
      SplitText(rest);
      var name := TrimSlash(Rooted(rest));
      TrimOnce(name);
      if root <= p {
        RelBelow(root, p);
        assert root + rest == p;
      } else {
        RelBeside(root, p);
        TextApart(root + p, p);
      }
      assert TarPathFromRoot(root, p) == name;
      NameIsClean(rest, isDir);
      CleanRelative(rest);
      JoinRelative(root, rest);
    }
  }

  lemma TextApart(p: Path, q: Path)
    requires Named(p) && Named(q) && p != q
    ensures Text(p) != Text(q)
  {
    if Text(p) == Text(q) {
      TextInjective(p, q);
    }
  }

  /** The name of "/" seen from a root below it is empty, and is taken for the root. */
  lemma NothingTrimmed()
    ensures TrimSlashes("/") == "" && Clean("") == "."
  {
    SplitNothing();
    assert "/"[1..] == "";
    assert [""][..0] == [];
  }

  lemma NameIsClean(p: Path, isDir: bool)
    requires Named(p) && p != []
    ensures var name := TrimSlash(Rooted(p)); name[|name| - 1] != '/'
  {
    SplitText(p);
  }

  lemma TextInjective(p: Path, q: Path)
    requires Named(p) && Named(q) && Text(p) == Text(q)
    ensures p == q
  {
    hide Split, Rooted;
    if p != [] {
      SplitText(p);
    }
    if q != [] {
      SplitText(q);
    }
    SplitJoined("", "");
    SplitNothing();
    assert "" + "/" + "" == "/";
    assert p == Split(Text(p))[1..] || p == [];
  }

  // ---------------------------------------------------------------------------------------------
  // Whiteouts decode back
  // ---------------------------------------------------------------------------------------------

  /** `filepath.Base` of a cleaned absolute path. */
  function BaseName(s: string): string {
    var parts := Split(s);
    if parts[|parts| - 1] == "" then "/" else parts[|parts| - 1]
  }

  /** Everything up to the last slash. */
  function UpToLast(s: string): string {
    if s == [] || s[|s| - 1] == '/' then s else UpToLast(s[..|s| - 1])
  }

  /** `filepath.Dir` */
  function DirName(s: string): string {
    Clean(UpToLast(s))
  }

  datatype Action = Deletes(path: string) | Extracts(path: string)

  /** What `GetFSFromLayers` does with an entry of that name. */
  function Decoded(root: Path, name: string): Action {
    var path := Extracted(root, name);
    var base := BaseName(path);
    if WHITEOUT_PREFIX <= base then Deletes(Join(DirName(path), base[|WHITEOUT_PREFIX|..])) else Extracts(path)
  }

  /** `Tar.Whiteout`: the text of the marker's path, and the name of its entry. */
  function MarkerText(p: Path): string {
    Join(DirName(Text(p)), WHITEOUT_PREFIX + BaseName(Text(p)))
  }

  function MarkerEntry(root: Path, marker: Path): string {
    TrimSlashes(TarPathFromRoot(root, marker))
  }

  lemma {:induction false} LastSlash(front: string, c: Name)
    requires '/' !in c
    ensures UpToLast(front + "/" + c) == front + "/"
    decreases |c|
  {
    var s := front + "/" + c;
    if c == "" {
      assert s == front + "/";
    } else {
      assert s[..|s| - 1] == front + "/" + c[..|c| - 1];
      LastSlash(front, c[..|c| - 1]);
    }
  }

  lemma CleanTrailing(p: Path)
    requires Named(p)
    ensures Clean(Rooted(p) + "/") == Text(p)
  {
    hide Split, UpToSlash, Squeezed, Rooted;
    NoParts();
    if p == [] {
      CleanRoot();
      assert "" + "/" == "/";
    } else {
      var s := Rooted(p) + "/";
      SplitText(p);
      SplitJoined(Rooted(p), "");
      assert Rooted(p) + "/" + "" == s;
      SplitNothing();
      SqueezedEmpty(true, []);
      SqueezedEmpty(true, [""] + p);
      SqueezedAppend(true, [""], p);
      assert [""] + p + [""] == Split(s);
      assert [] + [""] == [""];
      assert s[0] == Rooted(p)[..1][0];
      assert Squeezed(true, Split(s)) == p;
    }
  }

  lemma BaseAndDir(p: Path)
    requires Named(p) && p != []
    ensures BaseName(Text(p)) == Base(p) && DirName(Text(p)) == Text(Parent(p)) && Component(Base(p))
  {
    hide Split, Clean;
    SplitText(p);
    var all := [""] + p;
    assert all[|all| - 1] == Base(p);
    LastSlash(Rooted(Parent(p)), Base(p));
    CleanTrailing(Parent(p));
  }

  lemma MarkerIsComponent(c: Name)
    requires Component(c)
    ensures Component(WHITEOUT_PREFIX + c)
  {
    assert (WHITEOUT_PREFIX + c)[1] == 'w';
  }

  lemma JoinOne(up: Path, c: Name)
    requires Named(up) && Component(c)
    ensures Join(Text(up), c) == Text(up + [c])
  {
    hide Join;
    JoinRelative(up, [c]);
    RootedFront(c, []);
    NoParts();
    assert [c] + [] == [c];
    assert Rooted([c]) == "/" + c;
  }

  /** The marker is the whiteout name of the path, next to it. */
  lemma MarkerIsWhiteoutName(p: Path)
    requires Named(p) && p != []
    ensures MarkerText(p) == Text(WhiteoutName(p)) && Named(WhiteoutName(p))
  {
    hide Join, Text;
    BaseAndDir(p);
    MarkerIsComponent(Base(p));
    JoinOne(Parent(p), WHITEOUT_PREFIX + Base(p));
  }

  lemma TrimAgain(root: Path, p: Path)
    requires Named(root) && Named(p) && root < p
    ensures MarkerEntry(root, p) == EntryName(root, p, false)
  {
    hide Rooted, Rel, LeadsOut;
    var rest := p[|root|..];
    RelBelow(root, p);
    SplitText(rest);
    TrimOnce(TrimSlash(Rooted(rest)));
  }

  /** The whiteout of a path strictly below the root decodes to the deletion of exactly that path. */
  lemma WhiteoutsDecode(root: Path, p: Path)
    requires Named(root) && Named(p) && root < p
    ensures MarkerText(p) == Text(WhiteoutName(p))
    ensures Decoded(root, MarkerEntry(root, WhiteoutName(p))) == Deletes(Text(p))
  {
    hide Text, Join, Extracted, EntryName, MarkerEntry, BaseName, DirName;
    var marker := WhiteoutName(p);
    MarkerIsWhiteoutName(p);
    assert root <= Parent(p) && Parent(p) < marker;
    PrefixTransitive(root, Parent(p), marker);
    TrimAgain(root, marker);
    NamesDecode(root, marker, false);
    BaseAndDir(marker);
    BaseAndDir(p);
    assert Base(marker)[|WHITEOUT_PREFIX|..] == Base(p) && Parent(marker) == Parent(p);
    JoinOne(Parent(p), Base(p));
    assert Parent(p) + [Base(p)] == p;
  }

  lemma CleanText(p: Path)
    requires Named(p)
    ensures Clean(Text(p)) == Text(p)
  {
    hide Split, Squeezed, Rooted;
    if p == [] {
      CleanRoot();
    } else {
      SplitText(p);
      SqueezedEmpty(true, []);
      assert [] + [""] == [""];
      SqueezedAppend(true, [""], p);
      assert [] + p == p && Rooted(p)[0] == Rooted(p)[..1][0];
    }
  }

  lemma SqueezedUp(before: Path, p: Path)
    requires Named(p) && Squeezed(true, before) == p
    ensures Squeezed(true, before + [".."]) == Parent(p)
  {
    assert (before + [".."])[..|before|] == before;
    if p != [] {
      assert Component(p[|p| - 1]);
    }
  }

  /** Joining two dots climbs, but not above the root. */
  lemma JoinUp(p: Path)
    requires Named(p)
    ensures Join(Text(p), "..") == Text(Parent(p))
  {
    hide Split, UpToSlash, Squeezed, Rooted;
    var s := Text(p) + "/" + "..";
    SplitJoined(Text(p), "..");
    SplitComponent("..");
    SplitJoined("", "");
    assert "" + "/" + "" == "/";
    SplitNothing();
    SqueezedEmpty(true, []);
    assert [] + [""] == [""];
    SqueezedEmpty(true, [""]);
    if p == [] {
      SqueezedUp([""] + [""], p);
    } else {
      SplitText(p);
      SqueezedAppend(true, [""], p);
      SqueezedUp([""] + p, p);
      assert s[0] == Rooted(p)[..1][0];
    }
    assert Squeezed(true, Split(s)) == Parent(p);
  }

  /** What the rest of a marker's name is joined to the directory as: the path that the marker deletes. */
  lemma RestJoined(p: Path)
    requires Named(p) && IsMarker(p)
    ensures Join(Text(Parent(p)), Base(p)[|WHITEOUT_PREFIX|..]) == Text(Whited(p)) && Named(Whited(p))
  {
    hide Clean, Text;
    var up, rest := Parent(p), Base(p)[|WHITEOUT_PREFIX|..];
    assert Component(p[|p| - 1]);
    CleanText(up);
    JoinDot(up);
    JoinUp(up);
    if rest != "" && rest != "." && rest != ".." {
      JoinOne(up, rest);
    }
  }

  /**
   * An entry for a path at or under the root is taken for a deletion exactly if its last component is a
   * marker's, and then for that of the path that the marker decodes to.
   */
  lemma EntriesDecode(root: Path, p: Path, isDir: bool)
    requires Named(root) && Named(p) && root <= p
    ensures var action := Decoded(root, EntryName(root, p, isDir));
      && (action == Extracts(Text(p)) <==> !IsMarker(p))
      && (IsMarker(p) ==> action == Deletes(Text(Whited(p))))
  {
    hide Join, Extracted, EntryName, DirName;
    NamesDecode(root, p, isDir);
    if p != [] {
      hide BaseName, Text;
      BaseAndDir(p);
      if IsMarker(p) {
        RestJoined(p);
      }
    } else {
      SplitJoined("", "");
      SplitNothing();
      assert "" + "/" + "" == "/";
      assert ([""] + [""])[1] == "";
      assert BaseName("/") == "/";
    }
  }
}
