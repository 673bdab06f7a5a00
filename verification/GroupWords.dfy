// The words of the sort's index array: a position in the low 20 bits, and in the bits above it, at
// the head of each group, the size of the group and whether it still has to be sorted.

module GroupWords {
  const INDEXES := 0x10_0000
  const EXTRA := 1024

  function IndexOf(v: nat): nat { v % INDEXES }
  function TagOf(v: nat): nat { v / INDEXES }

  function Raw(s: seq<nat>): (r: seq<nat>)
    ensures |r| == |s| && forall k :: 0 <= k < |s| ==> r[k] == IndexOf(s[k])
  {
    seq(|s|, k requires 0 <= k < |s| => IndexOf(s[k]))
  }

  // Words without size bits.
  predicate Plain(s: seq<nat>) { forall k :: 0 <= k < |s| ==> s[k] < INDEXES }

  lemma PlainRaw(s: seq<nat>)
    requires Plain(s)
    ensures Raw(s) == s
  {}

  lemma RawConcat(s: seq<nat>, t: seq<nat>)
    ensures Raw(s + t) == Raw(s) + Raw(t)
  {}

  function HeadTag(size: nat, open: bool): nat
    requires size >= 1
  {
    (size - 1) % EXTRA + (if size > EXTRA then EXTRA else 0) + if open then 2 * EXTRA else 0
  }

  // How the program reads the head of a group.
  function SizeAt(s: seq<nat>): (n: nat)
    requires s != []
    ensures n >= 1
  {
    TagOf(s[0]) % EXTRA + (if TagOf(s[0]) / EXTRA % 2 == 1 && |s| > 1 then TagOf(s[1]) * EXTRA else 0) + 1
  }

  predicate OpenAt(s: seq<nat>)
    requires s != []
  {
    TagOf(s[0]) / (2 * EXTRA) % 2 == 1
  }

  // The words of one group, with its size at the head.
  predicate Tile(s: seq<nat>, open: bool) {
    && 1 <= |s| <= INDEXES && (open ==> |s| >= 2)
    && TagOf(s[0]) == HeadTag(|s|, open) && (|s| > 1 ==> TagOf(s[1]) == (|s| - 1) / EXTRA)
    && forall k :: 2 <= k < |s| ==> s[k] < INDEXES
  }

  lemma TileReads(s: seq<nat>, t: seq<nat>, open: bool)
    requires Tile(s, open)
    ensures SizeAt(s + t) == |s| && OpenAt(s + t) == open
  {
    var n: nat := |s| - 1;
    assert (s + t)[0] == s[0];
    assert |s| > 1 ==> (s + t)[1] == s[1];
    TagReads(n % EXTRA, |s| > EXTRA, open);
    assert n == n % EXTRA + n / EXTRA * EXTRA;
    assert |s| <= EXTRA ==> n / EXTRA == 0;
  }

  lemma TagReads(low: nat, long: bool, open: bool)
    requires low < EXTRA
    ensures var v := low + (if long then EXTRA else 0) + if open then 2 * EXTRA else 0;
            && v % EXTRA == low && v / EXTRA % 2 == (if long then 1 else 0)
            && v / (2 * EXTRA) % 2 == (if open then 1 else 0)
  {}

  // The positions of an open group carry the number of its head; the others carry their own place.
  predicate Numbered(s: seq<nat>, g: seq<nat>, a: nat, open: bool) {
    forall k :: 0 <= k < |s| ==> IndexOf(s[k]) < |g| && g[IndexOf(s[k])] == if open then a else a + k
  }

  // Groups one after the other, from place a on.
  predicate Tiled(s: seq<nat>, g: seq<nat>, a: nat)
    decreases |s|
  {
    s == [] ||
    var n := SizeAt(s);
    && n <= |s| && Tile(s[..n], OpenAt(s)) && Numbered(s[..n], g, a, OpenAt(s))
    && Tiled(s[n..], g, a + n)
  }

  lemma NoneTiled(s: seq<nat>, g: seq<nat>)
    requires s == []
    ensures Tiled(s, g, 0)
  {}

  lemma TiledOne(s: seq<nat>, g: seq<nat>, a: nat, open: bool)
    requires Tile(s, open) && Numbered(s, g, a, open)
    ensures Tiled(s, g, a)
  {
    TileReads(s, [], open);
    assert s + [] == s;
    assert s[..|s|] == s;
  }

  lemma {:induction false} TiledConcat(s: seq<nat>, t: seq<nat>, g: seq<nat>, a: nat)
    requires Tiled(s, g, a) && Tiled(t, g, a + |s|)
    ensures Tiled(s + t, g, a)
    decreases |s|
  {
    hide Tile, Numbered, SizeAt, OpenAt;
    if s == [] {
      assert s + t == t;
    } else {
      var n := SizeAt(s);
      TiledConcat(s[n..], t, g, a + n);
      TiledCons(s[..n], s[n..] + t, g, a, OpenAt(s));
      assert s + t == s[..n] + (s[n..] + t);
    }
  }

  lemma TiledCons(s: seq<nat>, t: seq<nat>, g: seq<nat>, a: nat, open: bool)
    requires Tile(s, open) && Numbered(s, g, a, open) && Tiled(t, g, a + |s|)
    ensures Tiled(s + t, g, a)
  {
    TileReads(s, t, open);
    assert (s + t)[..|s|] == s && (s + t)[|s|..] == t;
  }

  // Only the numbers of the positions in s matter.
  lemma {:induction false} TiledFrame(s: seq<nat>, g: seq<nat>, g': seq<nat>, a: nat)
    requires Tiled(s, g, a) && |g'| == |g|
    requires forall k :: 0 <= k < |s| && IndexOf(s[k]) < |g| ==> g'[IndexOf(s[k])] == g[IndexOf(s[k])]
    ensures Tiled(s, g', a)
    decreases |s|
  {
    if s != [] {
      var n := SizeAt(s);
      forall k | 0 <= k < n
        ensures IndexOf(s[..n][k]) < |g| && g'[IndexOf(s[..n][k])] == g[IndexOf(s[..n][k])]
      {
        assert s[..n][k] == s[k];
      }
      forall k | 0 <= k < |s| - n && IndexOf(s[n..][k]) < |g|
        ensures g'[IndexOf(s[n..][k])] == g[IndexOf(s[n..][k])]
      {
        assert s[n..][k] == s[n + k];
      }
      TiledFrame(s[n..], g, g', a + n);
    }
  }

  lemma {:induction false} TiledBounds(s: seq<nat>, g: seq<nat>, a: nat, k: nat)
    requires Tiled(s, g, a) && k < |s|
    ensures IndexOf(s[k]) < |g| && a <= g[IndexOf(s[k])] <= a + k
    decreases |s|
  {
    var n := SizeAt(s);
    if k < n {
      assert s[..n][k] == s[k];
    } else {
      TiledBounds(s[n..], g, a + n, k - n);
    }
  }

  // ----- Setting the size of a group -----------------------------------------------------------

  method SetGroupSize(words: array<nat>, p: nat, size: nat)
    requires 1 <= size <= INDEXES && p + size <= words.Length && Plain(words[p..p + size])
    modifies words
    ensures words[..p] == old(words[..p]) && words[p + size..] == old(words[p + size..])
    ensures Tile(words[p..p + size], size >= 2) && Raw(words[p..p + size]) == old(words[p..p + size])
  {
    ghost var s := words[p..p + size];
    var last := size - 1;
    if last != 0 {
      words[p] := words[p] + (0x800 + last % EXTRA) * INDEXES;
      if last >= EXTRA {
        words[p] := words[p] + 0x400 * INDEXES;
        words[p + 1] := words[p + 1] + last / EXTRA * INDEXES;
      }
      MarkedTile(s, words[p..p + size], true);
    } else {
      MarkedTile(s, s, false);
    }
  }

  method SetFinishedGroupSize(words: array<nat>, p: nat, size: nat)
    requires 1 <= size <= INDEXES && p + size <= words.Length && Plain(words[p..p + size])
    modifies words
    ensures words[..p] == old(words[..p]) && words[p + size..] == old(words[p + size..])
    ensures Tile(words[p..p + size], false) && Raw(words[p..p + size]) == old(words[p..p + size])
  {
    ghost var s := words[p..p + size];
    words[p] := words[p] + (size - 1) % EXTRA * INDEXES;
    if size > EXTRA {
      words[p] := words[p] + 0x400 * INDEXES;
      words[p + 1] := words[p + 1] + (size - 1) / EXTRA * INDEXES;
    }
    MarkedTile(s, words[p..p + size], false);
  }

  lemma MarkedTile(s: seq<nat>, t: seq<nat>, open: bool)
    requires Plain(s) && 1 <= |s| == |t| <= INDEXES && (open ==> |s| >= 2)
    requires t[0] == s[0] + HeadTag(|s|, open) * INDEXES
    requires |s| > 1 ==> t[1] == s[1] + (|s| - 1) / EXTRA * INDEXES
    requires forall k :: 2 <= k < |s| ==> t[k] == s[k]
    ensures Tile(t, open) && Raw(t) == s
  {
    MarkedWord(s[0], HeadTag(|s|, open));
    if |s| > 1 { MarkedWord(s[1], (|s| - 1) / EXTRA); }
  }

  lemma MarkedWord(v: nat, tag: nat)
    requires v < INDEXES
    ensures IndexOf(v + tag * INDEXES) == v && TagOf(v + tag * INDEXES) == tag
  {}

  // Size bits fit beside the position in 32 bits.
  ghost predicate AllFit(s: seq<nat>) { forall k :: 0 <= k < |s| ==> s[k] < 0x1_0000_0000 }

  lemma TileFits(s: seq<nat>, open: bool)
    requires Tile(s, open)
    ensures AllFit(s)
  {
    forall k | 0 <= k < |s|
      ensures s[k] < 0x1_0000_0000
    {
      assert s[k] == IndexOf(s[k]) + TagOf(s[k]) * INDEXES;
    }
  }

  lemma {:induction false} TiledFits(s: seq<nat>, g: seq<nat>, a: nat)
    requires Tiled(s, g, a)
    ensures AllFit(s)
    decreases |s|
  {
    hide Tile, Numbered;
    if s != [] {
      var n := SizeAt(s);
      TileFits(s[..n], OpenAt(s));
      TiledFits(s[n..], g, a + n);
      assert s == s[..n] + s[n..];
    }
  }
}
