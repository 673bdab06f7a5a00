// Small groups: the numbers ahead are packed with the places into words, the words are heap sorted,
// and equal numbers become the new groups.

module KeySorting {
  import opened Words
  import opened Rotations
  import opened GroupOrder
  import opened GroupWords
  import opened Permutations
  import opened GroupSorting
  import HeapSorting

  ghost predicate Packed(c: Round, g: seq<nat>, s: seq<nat>, t: seq<nat>, refs: nat)
    requires c.data != [] && |g| == |c.data|
  {
    |t| == |s| <= refs && forall j :: 0 <= j < |s| ==> t[j] == Key(c, g, s[j]) * refs + j < WORD
  }

  // The position a packed word stands for.
  function Picked(s: seq<nat>, refs: nat): nat -> nat
    requires refs > 0
  {
    (v: nat) => if v % refs < |s| then s[v % refs] else 0
  }

  function KeysOf(t: seq<nat>, refs: nat): (k: seq<nat>)
    requires refs > 0
    ensures |k| == |t| && forall j :: 0 <= j < |t| ==> k[j] == t[j] / refs
  {
    seq(|t|, j requires 0 <= j < |t| => t[j] / refs)
  }

  lemma PackedWord(key: nat, j: nat, refs: nat)
    requires j < refs
    ensures (key * refs + j) % refs == j && (key * refs + j) / refs == key
  {
    ModUnique(key * refs + j, refs, key, j);
  }

  // Any order of the packed words: every word still tells its position and that position's key.
  lemma Unpacked(c: Round, g: seq<nat>, s: seq<nat>, t: seq<nat>, t': seq<nat>, refs: nat)
    requires c.data != [] && |g| == |c.data| && refs > 0 && Packed(c, g, s, t, refs) && multiset(t') == multiset(t)
    ensures |t'| == |s| && multiset(Apply(Picked(s, refs), t')) == multiset(s)
    ensures forall j :: 0 <= j < |t'| ==> t'[j] % refs < |s| && t'[j] / refs == Key(c, g, s[t'[j] % refs])
  {
    assert |multiset(t')| == |t'| && |multiset(t)| == |t|;
    ApplySame(Picked(s, refs), t', t);
    forall j | 0 <= j < |t|
      ensures t[j] % refs == j && t[j] / refs == Key(c, g, s[j])
    {
      PackedWord(Key(c, g, s[j]), j, refs);
    }
    assert Apply(Picked(s, refs), t) == s;
    forall j | 0 <= j < |t'|
      ensures t'[j] % refs < |s| && t'[j] / refs == Key(c, g, s[t'[j] % refs])
    {
      assert t'[j] in multiset(t');
      assert t'[j] in t;
    }
  }

  lemma {:induction false} KeysSorted(t: seq<nat>, refs: nat)
    requires refs > 0 && HeapSorting.Sorted(t)
    ensures HeapSorting.Sorted(KeysOf(t, refs))
  {
    forall i, j | 0 <= i < j < |t|
      ensures t[i] / refs <= t[j] / refs
    {
      DivOrder(t[i], t[j], refs);
    }
  }

  lemma DivOrder(x: nat, y: nat, n: nat)
    requires x <= y && n > 0
    ensures x / n <= y / n
  {
    if x / n > y / n {
      MulOrder(n, y / n + 1, x / n);
    }
  }

  // The number of the j-th position in the order of the keys: the place of the first one with its key.
  function NewNumber(k: seq<nat>, a: nat, j: nat): (r: nat)
    requires j < |k|
    ensures a <= r <= a + j
  {
    if j > 0 && k[j] == k[j - 1] then NewNumber(k, a, j - 1) else a + j
  }

  lemma {:induction false} NumbersFollowKeys(k: seq<nat>, a: nat, i: nat, j: nat)
    requires HeapSorting.Sorted(k) && i <= j < |k|
    ensures NewNumber(k, a, i) <= NewNumber(k, a, j)
    ensures NewNumber(k, a, i) == NewNumber(k, a, j) <==> k[i] == k[j]
  {
    if i < j {
      NumbersFollowKeys(k, a, i, j - 1);
      assert k[i] <= k[j - 1] <= k[j];
    }
  }

  // The first j positions have their new numbers.
  ghost predicate NumberedBy(g: seq<nat>, g': seq<nat>, y: seq<nat>, k: seq<nat>, a: nat, j: nat) {
    && |g'| == |g| && |k| == |y| && j <= |y|
    && (forall i :: 0 <= i < j ==> y[i] < |g| && g'[y[i]] == NewNumber(k, a, i))
    && (forall q: nat :: q < |g| && q !in y[..j] ==> g'[q] == g[q])
  }

  lemma NumberNext(g: seq<nat>, g': seq<nat>, y: seq<nat>, k: seq<nat>, a: nat, j: nat)
    requires NumberedBy(g, g', y, k, a, j) && j < |y| && Once(y) && y[j] < |g|
    ensures NumberedBy(g, g'[y[j] := NewNumber(k, a, j)], y, k, a, j + 1)
  {
    var g'' := g'[y[j] := NewNumber(k, a, j)];
    assert y[..j + 1] == y[..j] + [y[j]];
    forall i | 0 <= i < j
      ensures g''[y[i]] == NewNumber(k, a, i)
    {
      OncePlaces(y, i, j);
    }
  }

  lemma SettledByKeys(c: Round, g: seq<nat>, g': seq<nat>, y: seq<nat>, k: seq<nat>, a: nat)
    requires Waiting(c, y, g, a) && c.data != [] && |g| == |c.data| == |c.start| && HeapSorting.Sorted(k)
    requires NumberedBy(g, g', y, k, a, |y|) && forall j :: 0 <= j < |y| ==> k[j] == Key(c, g, y[j])
    ensures Settled(c, g, g', Members(y), a, a + |y|)
  {
    hide Sound, Key, Deeper, ByKey;
    assert y[..|y|] == y;
    forall q: nat | q < |g| && q in y
      ensures a <= g'[q] < a + |y|
    {
      var j :| 0 <= j < |y| && y[j] == q;
    }
    ByKeys(c, g, g', y, k, a);
    SplitKeeps(c, g, g', Members(y), a, a + |y|);
  }

  lemma ByKeys(c: Round, g: seq<nat>, g': seq<nat>, y: seq<nat>, k: seq<nat>, a: nat)
    requires Sound(c, g) && c.data != [] && |g| == |c.data| == |c.start| && HeapSorting.Sorted(k)
    requires NumberedBy(g, g', y, k, a, |y|) && forall j :: 0 <= j < |y| ==> k[j] == Key(c, g, y[j])
    requires |g'| == |g|
    ensures ByKey(c, g, g', Members(y)) && Deeper(c, g', Members(y))
  {
    hide Sound, Key, NewNumber, NumberedBy, HeapSorting.Sorted;
    forall p: nat, q: nat | p < |g| && q < |g| && p in y && q in y
      ensures (g'[p] < g'[q] ==> Key(c, g, p) < Key(c, g, q))
      ensures g'[p] == g'[q] ==> Key(c, c.start, p) == Key(c, c.start, q)
    {
      PairByKeys(c, g, g', y, k, a, p, q);
    }
  }

  lemma PairByKeys(c: Round, g: seq<nat>, g': seq<nat>, y: seq<nat>, k: seq<nat>, a: nat, p: nat, q: nat)
    requires Sound(c, g) && c.data != [] && |g| == |c.data| == |c.start| && HeapSorting.Sorted(k)
    requires NumberedBy(g, g', y, k, a, |y|) && forall j :: 0 <= j < |y| ==> k[j] == Key(c, g, y[j])
    requires p in y && q in y && p < |g| && q < |g|
    ensures (g'[p] < g'[q] ==> Key(c, g, p) < Key(c, g, q))
    ensures g'[p] == g'[q] ==> Key(c, c.start, p) == Key(c, c.start, q)
  {
    hide Sound, Key, NewNumber, HeapSorting.Sorted;
    var i: nat :| i < |y| && y[i] == p;
    var j: nat :| j < |y| && y[j] == q;
    NumbersOrdered(k, a, i, j);
    if k[i] == k[j] { SameKeyDeeper(c, g, p, q); }
  }

  lemma NumbersOrdered(k: seq<nat>, a: nat, i: nat, j: nat)
    requires HeapSorting.Sorted(k) && i < |k| && j < |k|
    ensures NewNumber(k, a, i) < NewNumber(k, a, j) ==> k[i] < k[j]
    ensures NewNumber(k, a, i) == NewNumber(k, a, j) <==> k[i] == k[j]
  {
    if i <= j { NumbersFollowKeys(k, a, i, j); } else { NumbersFollowKeys(k, a, j, i); }
  }

  // ----- Filling in the new groups -------------------------------------------------------------

  // The words t after j of the sorted words have been replaced; the group of place first is not yet closed.
  ghost predicate Filled(g: seq<nat>, g1: seq<nat>, y: seq<nat>, k: seq<nat>, a: nat, t: seq<nat>, words: seq<nat>,
                         first: nat, j: nat, more: bool) {
    && |t| == |words| == |y| && first < j <= |y| && NumberedBy(g, g1, y, k, a, j)
    && t[j..] == words[j..] && Raw(t[..j]) == y[..j] && Plain(t[first..j]) && Tiled(t[..first], g1, a)
    && (forall i :: first <= i < j ==> NewNumber(k, a, i) == a + first)
    && (!more ==> first == j - 1 && Numbered(t[..first], g1, a, false))
  }

  // All groups so far are closed.
  ghost predicate Closed(g: seq<nat>, g1: seq<nat>, y: seq<nat>, k: seq<nat>, a: nat, t: seq<nat>, words: seq<nat>,
                         j: nat, more: bool) {
    && |t| == |words| == |y| && j <= |y| && NumberedBy(g, g1, y, k, a, j)
    && t[j..] == words[j..] && Raw(t[..j]) == y[..j] && Tiled(t[..j], g1, a)
    && (!more ==> Numbered(t[..j], g1, a, false))
  }

  lemma CloseGroup(g: seq<nat>, g1: seq<nat>, y: seq<nat>, k: seq<nat>, a: nat, t: seq<nat>, t': seq<nat>,
                   words: seq<nat>, first: nat, j: nat, more: bool)
    requires Filled(g, g1, y, k, a, t, words, first, j, more)
    requires |t'| == |t| && t'[..first] == t[..first] && t'[j..] == t[j..]
    requires Tile(t'[first..j], j - first >= 2) && Raw(t'[first..j]) == t[first..j]
    ensures Closed(g, g1, y, k, a, t', words, j, more)
  {
    hide Tile, Tiled, NumberedBy, NewNumber;
    var tile := t'[first..j];
    assert t'[..j] == t'[..first] + tile;
    assert t[..j] == t[..first] + t[first..j];
    RawConcat(t[..first], t[first..j]);
    RawConcat(t[..first], tile);
    PlainRaw(t[first..j]);
    TileNumbered(g, g1, y, k, a, tile, first, j);
    TiledOne(tile, g1, a + first, j - first >= 2);
    TiledConcat(t'[..first], tile, g1, a);
    if !more { NumberedConcat(t'[..first], tile, g1, g1, a); }
  }

  lemma TileNumbered(g: seq<nat>, g1: seq<nat>, y: seq<nat>, k: seq<nat>, a: nat, tile: seq<nat>, first: nat, j: nat)
    requires NumberedBy(g, g1, y, k, a, j) && first < j && Raw(tile) == y[first..j]
    requires forall i :: first <= i < j ==> NewNumber(k, a, i) == a + first
    ensures Numbered(tile, g1, a + first, j - first >= 2)
  {
    forall i | 0 <= i < |tile|
      ensures IndexOf(tile[i]) < |g1| && g1[IndexOf(tile[i])] == a + first
    {
      assert Raw(tile)[i] == y[first + i];
    }
  }

  // A new number for the position of place j leaves the closed groups alone.
  lemma NumberFrame(g1: seq<nat>, y: seq<nat>, a: nat, s: seq<nat>, j: nat, v: nat)
    requires Once(y) && j < |y| && y[j] < |g1| && |s| <= j && Raw(s) == y[..|s|] && Tiled(s, g1, a)
    ensures Tiled(s, g1[y[j] := v], a) && (Numbered(s, g1, a, false) ==> Numbered(s, g1[y[j] := v], a, false))
  {
    forall i | 0 <= i < |s| && IndexOf(s[i]) < |g1|
      ensures g1[y[j] := v][IndexOf(s[i])] == g1[IndexOf(s[i])]
    {
      assert Raw(s)[i] == y[i];
      OncePlaces(y, i, j);
    }
    TiledFrame(s, g1, g1[y[j] := v], a);
  }

  // The word at j becomes the next position.
  lemma PutNext(t: seq<nat>, words: seq<nat>, y: seq<nat>, first: nat, j: nat)
    requires first <= j < |t| == |words| == |y| && t[j..] == words[j..] && Raw(t[..j]) == y[..j] && Plain(t[first..j])
    requires y[j] < INDEXES
    ensures var t' := t[j := y[j]];
            && t'[..first] == t[..first] && t'[j + 1..] == words[j + 1..] && Raw(t'[..j + 1]) == y[..j + 1]
            && Plain(t'[first..j + 1]) && Raw(t[..first]) == y[..first]
  {
    var t' := t[j := y[j]];
    assert t'[..j + 1] == t[..j] + [y[j]] && y[..j + 1] == y[..j] + [y[j]];
    assert t'[first..j + 1] == t[first..j] + [y[j]];
    assert t'[j + 1..] == t[j..][1..] == words[j..][1..] == words[j + 1..];
    assert t[..j] == t[..first] + t[first..j];
    RawConcat(t[..first], t[first..j]);
    RawConcat(t[..j], [y[j]]);
    assert Raw(t[..first]) == y[..j][..first];
  }

  lemma OpenGroup(g: seq<nat>, g1: seq<nat>, y: seq<nat>, k: seq<nat>, a: nat, t: seq<nat>, words: seq<nat>,
                  j: nat, more: bool)
    requires Closed(g, g1, y, k, a, t, words, j, more) && 0 < j < |y| && Once(y) && y[j] < |g| && y[j] < INDEXES
    requires k[j] != k[j - 1]
    ensures Filled(g, g1[y[j] := a + j], y, k, a, t[j := y[j]], words, j, j + 1, more)
  {
    hide Tiled, NumberedBy, Once, Raw, Plain, Numbered;
    NumberedLengths(g, g1, y, k, a, j);
    NumberNext(g, g1, y, k, a, j);
    NumberFrame(g1, y, a, t[..j], j, a + j);
    assert Plain(t[j..j]) by { PlainNone(t[j..j]); }
    PutNext(t, words, y, j, j);
  }

  lemma PlainNone(s: seq<nat>)
    requires s == []
    ensures Plain(s)
  {}

  lemma NumberedLengths(g: seq<nat>, g1: seq<nat>, y: seq<nat>, k: seq<nat>, a: nat, j: nat)
    requires NumberedBy(g, g1, y, k, a, j)
    ensures |g1| == |g| && |k| == |y| && j <= |y|
  {}

  lemma ExtendGroup(g: seq<nat>, g1: seq<nat>, y: seq<nat>, k: seq<nat>, a: nat, t: seq<nat>, words: seq<nat>,
                    first: nat, j: nat, more: bool)
    requires Filled(g, g1, y, k, a, t, words, first, j, more) && j < |y| && Once(y) && y[j] < |g| && y[j] < INDEXES
    requires k[j] == k[j - 1]
    ensures Filled(g, g1[y[j] := a + first], y, k, a, t[j := y[j]], words, first, j + 1, true)
  {
    hide Tiled, NumberedBy, Once, Raw, Plain, Numbered;
    NumberedLengths(g, g1, y, k, a, j);
    assert NewNumber(k, a, j) == NewNumber(k, a, j - 1) == a + first;
    NumberNext(g, g1, y, k, a, j);
    PutNext(t, words, y, first, j);
    NumberFrame(g1, y, a, t[..first], j, a + first);
  }

  // ----- The program ---------------------------------------------------------------------------

  lemma SameTogether(c: Round, s: seq<nat>, g: seq<nat>, a: nat, key: nat)
    requires Waiting(c, s, g, a) && c.data != [] && |g| == |c.data| && LikeFirst(c, g, s, key)
    ensures |c.start| == |c.data| && AllTogether(c, Members(s))
  {
    hide Sound, Key;
    Lengths(c, g);
    forall p: nat, q: nat | p in s && q in s
      ensures Key(c, c.start, p) == Key(c, c.start, q)
    {
      var i :| 0 <= i < |s| && s[i] == p;
      var j :| 0 <= j < |s| && s[j] == q;
      SameKeyDeeper(c, g, p, q);
    }
  }

  lemma KeyFits(c: Round, g: seq<nat>, p: nat, j: nat, refs: nat)
    requires Sound(c, g) && c.data != [] && |g| == |c.data| && j < refs && |g| * refs <= WORD
    ensures Key(c, g, p) * refs + j < WORD
  {
    var q := Ahead(|g|, p, c.h);
    assert g[q] < c.end[q] <= |g|;
    MulOrder(refs, g[q] + 1, |g|);
  }

  // All keys are that of the first position.
  ghost predicate LikeFirst(c: Round, g: seq<nat>, s: seq<nat>, key: nat)
    requires c.data != [] && |g| == |c.data|
  {
    forall i :: 0 <= i < |s| ==> Key(c, g, s[i]) == key
  }

  lemma PackedNext(c: Round, g: seq<nat>, s: seq<nat>, a: nat, t: seq<nat>, j: nat, refs: nat, key: nat, first: nat)
    requires Waiting(c, s, g, a) && c.data != [] && |g| == |c.data| && j < |s| == |t| <= refs && |g| * refs <= WORD
    requires Packed(c, g, s[..j], t[..j], refs) && key == Key(c, g, s[j])
    ensures Packed(c, g, s[..j + 1], t[j := key * refs + j][..j + 1], refs)
    ensures LikeFirst(c, g, s[..j + 1], first) <==> LikeFirst(c, g, s[..j], first) && key == first
  {
    hide Key, Sound;
    KeyFits(c, g, s[j], j, refs);
    var s', t' := s[..j], t[..j];
    assert s[..j + 1] == s' + [s[j]] && t[j := key * refs + j][..j + 1] == t' + [key * refs + j];
    assert (s' + [s[j]])[j] == s[j];
    assert forall i :: 0 <= i < j ==> (s' + [s[j]])[i] == s'[i];
  }

  // The keys of the group, packed with the places; the keys differ if any differs from the first.
  method CollectKeys(ghost c: Round, h: nat, a: nat, size: nat, refs: nat, indices: array<nat>, temp: array<nat>,
                     groups: array<nat>) returns (differ: bool)
    requires Arrays(c, h, indices, temp, groups) && 2 <= size <= refs <= TEMP_SIZE && a + size <= indices.Length
    requires indices.Length * refs <= WORD && Waiting(c, indices[a..a + size], groups[..], a)
    modifies temp
    ensures Packed(c, groups[..], indices[a..a + size], temp[..size], refs)
    ensures differ || AllTogether(c, Members(indices[a..a + size]))
  {
    hide Waiting, Key, Packed, LikeFirst, AllTogether;
    ghost var s, g := indices[a..a + size], groups[..];
    WaitingFacts(c, s, g, a, 0);
    var first := ReadKey(c, h, indices[a], indices, temp, groups);
    PackedNone(c, g, refs, first);
    assert s[..0] == [] == temp[..size][..0];
    PackedNext(c, g, s, a, temp[..size], 0, refs, first, first);
    SetWord(temp, size, 0, first * refs);
    differ := false;
    var j := 1;
    while j < size
      invariant 1 <= j <= size && groups[..] == g && indices[a..a + size] == s
      invariant Packed(c, g, s[..j], temp[..size][..j], refs) && (differ <==> !LikeFirst(c, g, s[..j], first))
    {
      WaitingFacts(c, s, g, a, j);
      assert s[j] == indices[a + j];
      var key := ReadKey(c, h, indices[a + j], indices, temp, groups);
      PackedNext(c, g, s, a, temp[..size], j, refs, key, first);
      SetWord(temp, size, j, key * refs + j);
      differ := differ || key != first;
      j := j + 1;
    }
    assert s[..size] == s && temp[..size][..size] == temp[..size];
    if !differ { SameTogether(c, s, g, a, first); }
  }

  method SetWord(words: array<nat>, ghost size: nat, j: nat, v: nat)
    requires j < size <= words.Length
    modifies words
    ensures words[..size] == old(words[..size])[j := v]
  {
    words[j] := v;
  }

  lemma PackedNone(c: Round, g: seq<nat>, refs: nat, first: nat)
    requires c.data != [] && |g| == |c.data|
    ensures Packed(c, g, [], [], refs) && LikeFirst(c, g, [], first)
  {}

  lemma FirstFilled(g: seq<nat>, y: seq<nat>, k: seq<nat>, a: nat, words: seq<nat>)
    requires |k| == |y| == |words| >= 1 && y[0] < |g| && g[y[0]] == a && y[0] < INDEXES
    ensures Filled(g, g, y, k, a, words[0 := y[0]], words, 0, 1, false)
  {
    var t := words[0 := y[0]];
    assert t[..1] == [y[0]] == y[..1];
    assert t[0..1] == [y[0]];
  }

  lemma FilledTail(g: seq<nat>, g1: seq<nat>, y: seq<nat>, k: seq<nat>, a: nat, t: seq<nat>, words: seq<nat>,
                   first: nat, j: nat, more: bool)
    requires Filled(g, g1, y, k, a, t, words, first, j, more) && j < |t|
    ensures t[j] == words[j] && first < j && Plain(t[first..j])
  {
    assert t[j] == t[j..][0];
  }

  method CloseAt(ghost g: seq<nat>, ghost g1: seq<nat>, ghost y: seq<nat>, ghost k: seq<nat>, ghost a: nat,
                 temp: array<nat>, ghost size: nat, ghost words: seq<nat>, first: nat, j: nat, ghost more: bool)
    requires size <= temp.Length && |words| == size <= INDEXES
    requires Filled(g, g1, y, k, a, temp[..size], words, first, j, more)
    modifies temp
    ensures Closed(g, g1, y, k, a, temp[..size], words, j, more)
    ensures temp[j..] == old(temp[j..])
  {
    hide NumberedBy, NewNumber, Tiled, Tile, Numbered, Raw, Plain;
    ghost var t := temp[..size];
    assert temp[first..j] == t[first..j];
    SetGroupSize(temp, first, j - first);
    ghost var t' := temp[..size];
    assert t'[first..j] == temp[first..first + (j - first)];
    assert t'[..first] == t[..first] && t'[j..] == t[j..] by {
      assert t'[..first] == temp[..first];
      assert t'[j..] == temp[j..][..size - j];
    }
    CloseGroup(g, g1, y, k, a, t, t', words, first, j, more);
  }

  lemma AllClosed(g: seq<nat>, g1: seq<nat>, y: seq<nat>, k: seq<nat>, a: nat, t: seq<nat>, words: seq<nat>, more: bool)
    requires Closed(g, g1, y, k, a, t, words, |y|, more)
    ensures NumberedBy(g, g1, y, k, a, |y|) && Raw(t) == y && Tiled(t, g1, a) && (!more ==> Numbered(t, g1, a, false))
  {
    assert t[..|y|] == t && y[..|y|] == y;
  }

  // The sorted words become positions again; equal keys get one number and one size.
  method NumberGroups(ghost c: Round, a: nat, size: nat, refs: nat, indices: array<nat>, temp: array<nat>,
                      groups: array<nat>, ghost y: seq<nat>, ghost k: seq<nat>) returns (more: bool)
    requires indices != temp && temp != groups && groups != indices && 2 <= size <= refs && a + size <= indices.Length
    requires size <= temp.Length && |y| == size && groups.Length <= INDEXES && size <= INDEXES && Once(y)
    requires forall j :: 0 <= j < size ==> y[j] < groups.Length && groups[y[j]] == a
    requires k == KeysOf(temp[..size], refs)
    requires forall j :: 0 <= j < size ==> temp[j] % refs < size && y[j] == indices[a + temp[j] % refs]
    modifies temp, groups
    ensures NumberedBy(old(groups[..]), groups[..], y, k, a, size)
    ensures Raw(temp[..size]) == y && Tiled(temp[..size], groups[..], a)
    ensures !more ==> Numbered(temp[..size], groups[..], a, false)
  {
    hide Once, NumberedBy, NewNumber, Tiled, Tile, Numbered, Filled, Closed;
    ghost var words, g := temp[..size], groups[..];
    more := false;
    var group := a;
    var key := temp[0] / refs;
    temp[0] := indices[a + temp[0] % refs];
    var first := 0;
    var j := 1;
    FirstFilled(g, y, k, a, words);
    assert temp[..size] == words[0 := y[0]];
    while j < size
      invariant 1 <= j <= size && group == a + first && key == k[j - 1] && groups.Length == |g|
      invariant Filled(g, groups[..], y, k, a, temp[..size], words, first, j, more)
    {
      FilledTail(g, groups[..], y, k, a, temp[..size], words, first, j, more);
      var val := temp[j];
      if val / refs != key {
        key := val / refs;
        group := a + j;
        CloseAt(g, groups[..], y, k, a, temp, size, words, first, j, more);
        first := j;
        OpenGroup(g, groups[..], y, k, a, temp[..size], words, j, more);
      } else {
        ExtendGroup(g, groups[..], y, k, a, temp[..size], words, first, j, more);
        more := true;
      }
      var ind := indices[a + val % refs];
      temp[j] := ind;
      groups[ind] := group;
      j := j + 1;
    }
    CloseAt(g, groups[..], y, k, a, temp, size, words, first, size, more);
    AllClosed(g, groups[..], y, k, a, temp[..size], words, more);
  }

  method CopyBack(indices: array<nat>, a: nat, size: nat, temp: array<nat>)
    requires indices != temp && a + size <= indices.Length && size <= temp.Length
    modifies indices
    ensures indices[..a] == old(indices[..a]) && indices[a + size..] == old(indices[a + size..])
    ensures indices[a..a + size] == temp[..size]
  {
    var j := 0;
    while j < size
      invariant 0 <= j <= size
      invariant indices[..a] == old(indices[..a]) && indices[a + size..] == old(indices[a + size..])
      invariant indices[a..a + j] == temp[..j]
    {
      indices[a + j] := temp[j];
      assert indices[a..a + j + 1] == indices[a..a + j] + [temp[j]];
      assert temp[..j + 1] == temp[..j] + [temp[j]];
      j := j + 1;
    }
  }

  lemma PickedWaits(c: Round, s: seq<nat>, g: seq<nat>, a: nat, words: seq<nat>, refs: nat)
    requires Waiting(c, s, g, a) && refs > 0 && |words| == |s|
    requires multiset(Apply(Picked(s, refs), words)) == multiset(s)
    requires forall j :: 0 <= j < |words| ==> words[j] % refs < |s|
    ensures c.data != [] && |g| == |c.data|
    ensures var y := Apply(Picked(s, refs), words);
            && Waiting(c, y, g, a) && Members(y) == Members(s) && Once(y)
            && (forall j :: 0 <= j < |y| ==> y[j] < |g| && g[y[j]] == a && y[j] == s[words[j] % refs])
  {
    hide Sound;
    Lengths(c, g);
    var y := Apply(Picked(s, refs), words);
    WaitingPermuted(c, s, y, g, a);
    forall j | 0 <= j < |y|
      ensures y[j] < |g| && g[y[j]] == a
    {
      WaitingFacts(c, y, g, a, j);
    }
  }

  lemma SortedByKeys(c: Round, s: seq<nat>, g: seq<nat>, y: seq<nat>, k: seq<nat>, s': seq<nat>, g': seq<nat>,
                     a: nat, more: bool)
    requires Waiting(c, y, g, a) && c.data != [] && |g| == |c.data| && HeapSorting.Sorted(k)
    requires Members(y) == Members(s) && multiset(y) == multiset(s) && |y| == |s|
    requires NumberedBy(g, g', y, k, a, |y|) && forall j :: 0 <= j < |y| ==> k[j] == Key(c, g, y[j])
    requires Raw(s') == y && Tiled(s', g', a) && (!more ==> Numbered(s', g', a, false))
    ensures Sorted(c, s, g, s', g', a, more)
  {
    hide Sound, Key, NumberedBy, Tiled, Numbered, Settled;
    Lengths(c, g);
    SettledByKeys(c, g, g', y, k, a);
  }

  method SortSmall(ghost c: Round, h: nat, a: nat, size: nat, refs: nat, indices: array<nat>, temp: array<nat>,
                   groups: array<nat>) returns (more: bool)
    requires Arrays(c, h, indices, temp, groups) && 2 <= size <= refs <= TEMP_SIZE && a + size <= indices.Length
    requires indices.Length * refs <= WORD && Waiting(c, indices[a..a + size], groups[..], a)
    modifies indices, temp, groups
    ensures indices[..a] == old(indices[..a]) && indices[a + size..] == old(indices[a + size..])
    ensures Sorted(c, old(indices[a..a + size]), old(groups[..]), indices[a..a + size], groups[..], a, more)
  {
    hide Waiting, Sorted, Key, Packed, AllTogether, NumberedBy, Tiled, Tile, Numbered, HeapSorting.Sorted, Once,
      Members;
    ghost var s, g := indices[a..a + size], groups[..];
    var differ := CollectKeys(c, h, a, size, refs, indices, temp, groups);
    if !differ {
      WaitingPlain(c, s, g, a);
      SetGroupSize(indices, a, size);
      SortedWhole(c, s, g, indices[a..a + size], a);
      return true;
    }
    ghost var t := temp[..size];
    assert temp[0..size] == t;
    HeapSorting.HeapSort(temp, 0, size);
    assert temp[0..size] == temp[..size];
    more := Regroup(c, h, a, size, refs, indices, temp, groups, t);
  }

  // From the sorted words back to the group.
  method Regroup(ghost c: Round, ghost h: nat, a: nat, size: nat, refs: nat, indices: array<nat>, temp: array<nat>,
                 groups: array<nat>, ghost t: seq<nat>) returns (more: bool)
    requires Arrays(c, h, indices, temp, groups) && 2 <= size <= refs <= TEMP_SIZE && a + size <= indices.Length
    requires Waiting(c, indices[a..a + size], groups[..], a) && HeapSorting.Sorted(temp[..size])
    requires Packed(c, groups[..], indices[a..a + size], t, refs) && multiset(temp[..size]) == multiset(t)
    modifies indices, temp, groups
    ensures indices[..a] == old(indices[..a]) && indices[a + size..] == old(indices[a + size..])
    ensures Sorted(c, old(indices[a..a + size]), old(groups[..]), indices[a..a + size], groups[..], a, more)
  {
    hide Waiting, Sorted, Key, Packed, NumberedBy, Tiled, Numbered, HeapSorting.Sorted, Once, Members, Apply, KeysOf;
    ghost var s, g, words := indices[a..a + size], groups[..], temp[..size];
    Unpacked(c, g, s, t, words, refs);
    KeysSorted(words, refs);
    PickedWaits(c, s, g, a, words, refs);
    ghost var y, k := Apply(Picked(s, refs), words), KeysOf(words, refs);
    more := NumberGroups(c, a, size, refs, indices, temp, groups, y, k);
    CopyBack(indices, a, size, temp);
    SortedByKeys(c, s, g, y, k, temp[..size], groups[..], a, more);
  }

  lemma WaitingPlain(c: Round, s: seq<nat>, g: seq<nat>, a: nat)
    requires Waiting(c, s, g, a)
    ensures Plain(s) && 1 <= |s| <= INDEXES && c.data != [] && |c.start| == |c.data| == |g|
  {}
}
