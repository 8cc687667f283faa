/** The recent-colour history: newest first, at most ten entries, duplicates kept. */
module History {
  import opened Colors

  const Capacity: nat := 10

  function Min(a: int, b: int): int { if a <= b then a else b }

  /** The newest `Capacity` entries of `s` (what `slice(0, 10)` keeps). */
  function Newest(s: seq<Color>): (r: seq<Color>)
    ensures |r| == Min(|s|, Capacity) && r == s[..|r|]
  {
    s[..Min(|s|, Capacity)]
  }

  /** updateRecentColors: `c` goes in front, and the oldest entry falls off once ten are kept. */
  function Record(h: seq<Color>, c: Color): (r: seq<Color>)
    ensures |r| == Min(|h| + 1, Capacity)
    ensures r[0] == c
    ensures r[1..] == h[..Min(|h|, Capacity - 1)]
  {
    Newest([c] + h)
  }

  /** handleClearLastColor: the newest entry goes; an empty history stays empty. */
  function ClearLast(h: seq<Color>): (r: seq<Color>)
    ensures h == [] ==> r == []
    ensures h != [] ==> [h[0]] + r == h
  {
    if |h| > 0 then h[1..] else h
  }

  /** Clearing right after recording restores the history, unless recording evicted its oldest entry. */
  lemma ClearUndoesRecord(h: seq<Color>, c: Color)
    requires |h| < Capacity
    ensures ClearLast(Record(h, c)) == h
  {
  }

  function Reversed(s: seq<Color>): (r: seq<Color>)
    ensures |r| == |s|
  {
    if s == [] then [] else Reversed(s[1..]) + [s[0]]
  }

  /** Recording every colour of `cs`, first to last. */
  function RecordAll(h: seq<Color>, cs: seq<Color>): seq<Color>
    decreases |cs|
  {
    if cs == [] then h else RecordAll(Record(h, cs[0]), cs[1..])
  }

  /** Truncating the tail first does not change the newest entries. */
  lemma NewestOfNewest(a: seq<Color>, b: seq<Color>)
    ensures Newest(a + Newest(b)) == Newest(a + b)
  {
    var l, r := Newest(a + Newest(b)), Newest(a + b);
    assert |l| == |r|;
    forall k | 0 <= k < |l| ensures l[k] == r[k] {
      if k >= |a| {
        assert l[k] == Newest(b)[k - |a|];
      }
    }
  }

  /**
   * Recording a run of colours keeps the newest ten, most recent first, with no deduplication.
   * (A stored history longer than ten is cut only when the next colour is recorded.)
   */
  lemma {:induction false} RecordAllNewest(h: seq<Color>, cs: seq<Color>)
    requires |h| <= Capacity || cs != []
    ensures RecordAll(h, cs) == Newest(Reversed(cs) + h)
    decreases |cs|
  {
    if cs == [] {
      assert Reversed(cs) + h == h;
    } else {
      RecordAllNewest(Record(h, cs[0]), cs[1..]);
      NewestOfNewest(Reversed(cs[1..]), [cs[0]] + h);
      assert Reversed(cs) + h == Reversed(cs[1..]) + ([cs[0]] + h);
    }
  }

  /** Recording eleven or more colours leaves exactly the last ten, newest first: the first ones are evicted. */
  lemma RecordManyEvicts(h: seq<Color>, cs: seq<Color>)
    requires |cs| >= Capacity
    ensures RecordAll(h, cs) == Reversed(cs[|cs| - Capacity..])
  {
    RecordAllNewest(h, cs);
    var tail := cs[|cs| - Capacity..];
    ReversedSuffix(cs, |cs| - Capacity);
    assert Reversed(cs) == Reversed(tail) + Reversed(cs[..|cs| - Capacity]);
  }

  /** Reversing a sequence puts the reversal of its suffix first. */
  lemma {:induction false} ReversedSuffix(s: seq<Color>, k: nat)
    requires k <= |s|
    ensures Reversed(s) == Reversed(s[k..]) + Reversed(s[..k])
    decreases k
  {
    if k == 0 {
      assert s[0..] == s && Reversed(s[..0]) == [];
    } else {
      ReversedSuffix(s[1..], k - 1);
      assert s[1..][k - 1..] == s[k..];
      assert s[1..][..k - 1] == s[..k][1..];
      assert s[..k][0] == s[0];
    }
  }
}
