/** The list of strings that a cache key is made of, and what can be read back from it. */
module CompositeKeys {
  const DIGITS: string := "0123456789"

  /** `%d` of a natural number. */
  function Itoa(n: nat): (s: string)
    ensures s != []
  {
    if n < 10 then [DIGITS[n]] else Itoa(n / 10) + [DIGITS[n % 10]]
  }

  function DigitValue(c: char): nat {
    if '0' <= c <= '9' then c as nat - '0' as nat else 0
  }

  function Atoi(s: string): nat {
    if s == [] then 0 else 10 * Atoi(s[..|s| - 1]) + DigitValue(s[|s| - 1])
  }

  lemma {:induction false} AtoiItoa(n: nat)
    ensures Atoi(Itoa(n)) == n
  {
    if n >= 10 {
      AtoiItoa(n / 10);
      assert Itoa(n)[..|Itoa(n)| - 1] == Itoa(n / 10);
    } else {
      assert Itoa(n)[..0] == [];
    }
  }

  /** What one command adds to the key: its environment if it is needed, its text, its file hashes. */
  datatype Block = Block(envs: seq<string>, text: string, hashes: seq<string>)

  function CountMark(n: nat): string {
    "|" + Itoa(n)
  }

  function Encode(b: Block): seq<string> {
    (if b.envs == [] then [] else [CountMark(|b.envs|)] + b.envs) + [b.text] + b.hashes
  }

  function EncodeAll(bs: seq<Block>): seq<string> {
    if bs == [] then [] else Encode(bs[0]) + EncodeAll(bs[1..])
  }

  predicate HexDigit(c: char) {
    ('0' <= c <= '9') || ('a' <= c <= 'f')
  }

  /** The printed form of a SHA-256 sum. */
  predicate LooksLikeHash(s: string) {
    |s| == 64 && forall i :: 0 <= i < |s| ==> HexDigit(s[i])
  }

  predicate StartsWithBar(s: string) {
    s != [] && s[0] == '|'
  }

  /** Commands start with a keyword, and file hashes are SHA-256 sums; the environment may be anything. */
  predicate Plausible(b: Block) {
    && !StartsWithBar(b.text) && !LooksLikeHash(b.text)
    && forall h :: h in b.hashes ==> LooksLikeHash(h)
  }

  /** The longest run of file hashes at the front. */
  function HashRun(ks: seq<string>): (n: nat)
    ensures n <= |ks|
  {
    if ks == [] || !LooksLikeHash(ks[0]) then 0 else 1 + HashRun(ks[1..])
  }

  /** Reads the commands back from a key list. */
  function Decode(ks: seq<string>): seq<Block>
    decreases |ks|
  {
    if ks == [] then []
    else
      var n := if StartsWithBar(ks[0]) then Atoi(ks[0][1..]) else 0;
      var skip := if StartsWithBar(ks[0]) then 1 else 0;
      if |ks| < skip + n + 1 then []
      else
        var rest := ks[skip + n + 1..];
        var m := HashRun(rest);
        [Block(ks[skip..skip + n], ks[skip + n], rest[..m])] + Decode(rest[m..])
  }

  lemma {:induction false} HashRunEnds(hs: seq<string>, ks: seq<string>)
    requires forall h :: h in hs ==> LooksLikeHash(h)
    requires ks != [] ==> !LooksLikeHash(ks[0])
    ensures HashRun(hs + ks) == |hs|
    decreases |hs|
  {
    if hs == [] {
      assert hs + ks == ks;
    } else {
      assert hs[0] in hs;
      assert (hs + ks)[1..] == hs[1..] + ks;
      HashRunEnds(hs[1..], ks);
    }
  }

  /** No block starts with something that could be taken for a file hash of the block before. */
  lemma EncodedHead(bs: seq<Block>)
    requires bs != [] && forall b :: b in bs ==> Plausible(b)
    ensures EncodeAll(bs) != [] && !LooksLikeHash(EncodeAll(bs)[0])
  {
    assert bs[0] in bs;
    var head := EncodeAll(bs)[0];
    if bs[0].envs != [] {
      assert head == CountMark(|bs[0].envs|) && head[0] == '|';
      assert !HexDigit(head[0]);
    }
  }

  /** Where the parts of a block are in the list it starts. */
  lemma EncodedParts(b: Block, tail: seq<string>)
    ensures var ks, n := Encode(b) + tail, |b.envs|;
      var skip := if n == 0 then 0 else 1;
      && |ks| >= skip + n + 1 && ks[skip..skip + n] == b.envs && ks[skip + n] == b.text
      && ks[skip + n + 1..] == b.hashes + tail
      && (n > 0 ==> ks[0] == CountMark(n))
  {
    hide Itoa;
  }

  lemma CountRead(n: nat)
    ensures StartsWithBar(CountMark(n)) && Atoi(CountMark(n)[1..]) == n
  {
    assert CountMark(n)[1..] == Itoa(n);
    AtoiItoa(n);
  }

  lemma DecodeHead(b: Block, tail: seq<string>)
    requires Plausible(b) && (tail != [] ==> !LooksLikeHash(tail[0]))
    ensures Decode(Encode(b) + tail) == [b] + Decode(tail)
  {
    hide Itoa, Atoi, HashRun, Encode, LooksLikeHash, CountMark;
    EncodedParts(b, tail);
    HashRunEnds(b.hashes, tail);
    CountRead(|b.envs|);
    var ks, n, rest := Encode(b) + tail, |b.envs|, b.hashes + tail;
    assert rest[..|b.hashes|] == b.hashes && rest[|b.hashes|..] == tail;
    if n == 0 {
      assert ks[0..0] == [] && ks[0] == b.text;
      assert ks[1..] == rest;
    } else {
      assert ks[0] == CountMark(n) && ks[1 + n + 1..] == rest;
    }
  }

  lemma DecodeNothing()
    ensures Decode([]) == []
  {
  }

  /** The key list can be read back, thanks to the count in front of the environment. */
  lemma {:induction false} DecodeEncode(bs: seq<Block>)
    requires forall b :: b in bs ==> Plausible(b)
    ensures Decode(EncodeAll(bs)) == bs
    decreases |bs|
  {
    hide Decode, Encode, Plausible, LooksLikeHash;
    if bs == [] {
      DecodeNothing();
    } else {
      assert bs[0] in bs;
      assert forall b :: b in bs[1..] ==> b in bs;
      if bs[1..] != [] {
        EncodedHead(bs[1..]);
      }
      DecodeHead(bs[0], EncodeAll(bs[1..]));
      DecodeEncode(bs[1..]);
      assert bs == [bs[0]] + bs[1..];
    }
  }

  /** Two stages with the same key list have the same environments, commands and file hashes. */
  lemma KeyListInjective(bs: seq<Block>, cs: seq<Block>)
    requires forall b :: b in bs ==> Plausible(b)
    requires forall c :: c in cs ==> Plausible(c)
    requires EncodeAll(bs) == EncodeAll(cs)
    ensures bs == cs
  {
    DecodeEncode(bs);
    DecodeEncode(cs);
  }

  /** `Key`: the list joined with dashes. */
  function Join(ks: seq<string>): string {
    if ks == [] then "" else if |ks| == 1 then ks[0] else ks[0] + "-" + Join(ks[1..])
  }

  /** The text before the first dash. */
  function UpToDash(s: string): (n: nat)
    ensures n <= |s|
  {
    if s == [] || s[0] == '-' then 0 else 1 + UpToDash(s[1..])
  }

  /** The text between dashes. */
  function SplitDash(s: string): (parts: seq<string>)
    ensures parts != []
    decreases |s|
  {
    var n := UpToDash(s);
    if n == |s| then [s] else [s[..n]] + SplitDash(s[n + 1..])
  }

  function Dashes(s: string): (n: nat)
    ensures n == |SplitDash(s)| - 1
    decreases |s|
  {
    var n := UpToDash(s);
    if n == |s| then 0 else 1 + Dashes(s[n + 1..])
  }

  /** What is left of a list when the joined text is taken apart at the dashes. */
  function Pieces(ks: seq<string>): seq<string> {
    if ks == [] then [] else SplitDash(ks[0]) + Pieces(ks[1..])
  }

  lemma {:induction false} DashAppended(a: string, b: string)
    ensures UpToDash(a + b) == if UpToDash(a) < |a| then UpToDash(a) else |a| + UpToDash(b)
    ensures UpToDash(a) < |a| ==> a[UpToDash(a)] == '-'
    decreases |a|
  {
    if a == [] {
      assert a + b == b;
    } else if a[0] != '-' {
      assert (a + b)[1..] == a[1..] + b;
      DashAppended(a[1..], b);
    }
  }

  lemma {:induction false} SplitAtDash(a: string, b: string)
    ensures SplitDash(a + "-" + b) == SplitDash(a) + SplitDash(b)
    decreases |a|
  {
    hide UpToDash;
    var s, n := a + "-" + b, UpToDash(a);
    DashAppended(a, "-" + b);
    DashFirst(b);
    assert a + ("-" + b) == s;
    if n < |a| {
      assert s[..n] == a[..n] && s[n + 1..] == a[n + 1..] + "-" + b;
      SplitAtDash(a[n + 1..], b);
    } else {
      assert s[..n] == a && s[n + 1..] == b;
    }
  }

  lemma DashFirst(b: string)
    ensures UpToDash("-" + b) == 0
  {
  }

  lemma {:induction false} JoinPieces(ks: seq<string>)
    requires ks != []
    ensures SplitDash(Join(ks)) == Pieces(ks)
    decreases |ks|
  {
    if |ks| == 1 {
      assert ks[1..] == [] && SplitDash(ks[0]) + [] == SplitDash(ks[0]);
    } else {
      JoinPieces(ks[1..]);
      SplitAtDash(ks[0], Join(ks[1..]));
    }
  }

  lemma {:induction false} JoinSplit(s: string)
    ensures Join(SplitDash(s)) == s
    decreases |s|
  {
    hide UpToDash;
    var n := UpToDash(s);
    DashAppended(s, "");
    if n < |s| {
      JoinSplit(s[n + 1..]);
      var rest := SplitDash(s[n + 1..]);
      assert ([s[..n]] + rest)[1..] == rest;
      assert s == s[..n] + "-" + s[n + 1..];
    }
  }

  /** Joined texts are equal exactly if the lists leave the same pieces between dashes. */
  lemma JoinedEqual(ks: seq<string>, ls: seq<string>)
    requires ks != [] && ls != []
    ensures Join(ks) == Join(ls) <==> Pieces(ks) == Pieces(ls)
  {
    JoinPieces(ks);
    JoinPieces(ls);
    JoinSplit(Join(ks));
    JoinSplit(Join(ls));
  }

  /** The lists have the same length, and part by part the same number of dashes. */
  predicate SameDashes(ks: seq<string>, ls: seq<string>) {
    |ks| == |ls| && forall i :: 0 <= i < |ks| ==> Dashes(ks[i]) == Dashes(ls[i])
  }

  lemma {:induction false} PiecesDetermine(ks: seq<string>, ls: seq<string>)
    requires Pieces(ks) == Pieces(ls) && SameDashes(ks, ls)
    ensures ks == ls
    decreases |ks|
  {
    hide SplitDash, Dashes;
    if ks != [] {
      var k, l := SplitDash(ks[0]), SplitDash(ls[0]);
      assert Dashes(ks[0]) == Dashes(ls[0]);
      assert k == Pieces(ks)[..|k|] && l == Pieces(ls)[..|l|];
      assert Pieces(ks[1..]) == Pieces(ks)[|k|..] && Pieces(ls[1..]) == Pieces(ls)[|l|..];
      JoinSplit(ks[0]);
      JoinSplit(ls[0]);
      PiecesDetermine(ks[1..], ls[1..]);
      assert ks == [ks[0]] + ks[1..] && ls == [ls[0]] + ls[1..];
    }
  }

  /** When joining loses nothing: lists with the same joined text are equal exactly if their dashes agree. */
  lemma JoinExact(ks: seq<string>, ls: seq<string>)
    requires ks != [] && ls != [] && Join(ks) == Join(ls)
    ensures ks == ls <==> SameDashes(ks, ls)
  {
    if SameDashes(ks, ls) {
      JoinedEqual(ks, ls);
      PiecesDetermine(ks, ls);
    }
  }

  /** In general the joined key is not the list: two commands that differ can share it. */
  lemma JoinedKeysCollide()
    ensures var b, c := [Block(["A=x-RUN y"], "RUN z", [])], [Block(["A=x"], "RUN y-RUN z", [])];
      && (forall x :: x in b + c ==> Plausible(x))
      && b != c && Join(EncodeAll(b)) == Join(EncodeAll(c))
  {
    var b, c := [Block(["A=x-RUN y"], "RUN z", [])], [Block(["A=x"], "RUN y-RUN z", [])];
    assert EncodeAll(b) == ["|1", "A=x-RUN y", "RUN z"] by {
      assert b[1..] == [];
      assert CountMark(1) == "|1";
    }
    assert EncodeAll(c) == ["|1", "A=x", "RUN y-RUN z"] by {
      assert c[1..] == [];
      assert CountMark(1) == "|1";
    }
    JoinThree("|1", "A=x-RUN y", "RUN z");
    JoinThree("|1", "A=x", "RUN y-RUN z");
    assert "A=x-RUN y" + "-" + "RUN z" == "A=x" + "-" + "RUN y-RUN z";
  }

  lemma JoinThree(a: string, b: string, c: string)
    ensures Join([a, b, c]) == a + "-" + (b + "-" + c)
  {
    var three, two := [a, b, c], [b, c];
    assert three[1..] == two && two[1..] == [c];
    assert Join(two) == b + "-" + c;
    assert Join(three) == a + "-" + Join(three[1..]);
  }
}
