/** How small SynLZ output can get: the exact length, a bound for every input, and an input that comes near it. */
module SynLzSizes {
  import opened Bytes
  import opened SynLzFormat
  import opened SynLzCompressor

  function BodyBytes(items: seq<Item>): nat
    requires AllWellformed(items)
  {
    if items == [] then 0 else |Body(items[0])| + BodyBytes(items[1..])
  }

  /** A control word of four bytes goes in after every 32 items. */
  lemma {:induction false} TailLength(k: nat, items: seq<Item>)
    requires k < 32 && AllWellformed(items)
    ensures |Tail(Mask(k), items)| == BodyBytes(items) + 4 * ((k + |items|) / 32)
    decreases |items|
  {
    hide Mask, Body, U32, U32Bytes, FlagWord;
    if items != [] {
      NextBit(k);
      if k == 31 {
        FirstBit();
        TailLength(0, items[1..]);
        assert |Encode(items[1..])| == 4 + |Tail(1, items[1..])|;
      } else {
        TailLength(k + 1, items[1..]);
      }
    }
  }

  /** The length of the output, from the items alone. */
  lemma {:induction false} CompressedLength(src: seq<byte>)
    requires src != []
    ensures
      var items := Items(src, 0, Fresh());
      |Compressed(src)| == (if |src| < 0x8000 then 2 else 4) + 4 + BodyBytes(items) + 4 * (|items| / 32)
  {
    hide Mask, Items, U32, U32Bytes, FlagWord, Tail, BodyBytes;
    FirstBit();
    var items := Items(src, 0, Fresh());
    TailLength(0, items);
  }

  /** No item is cheaper than the longest back-reference: three bytes and a flag for 273 bytes. */
  lemma {:induction false} ItemCost(x: Item)
    requires Wellformed(x)
    ensures 273 * (8 * |Body(x)| + 1) >= 25 * Covered(x)
  {
  }

  lemma {:induction false} ItemsCost(items: seq<Item>)
    requires AllWellformed(items)
    ensures 273 * (8 * BodyBytes(items) + |items|) >= 25 * TotalCovered(items)
  {
    hide Body, Covered;
    if items != [] {
      ItemCost(items[0]);
      ItemsCost(items[1..]);
    }
  }

  /** For any input, 273 bytes need more than 25 eighths of a byte. */
  lemma {:induction false} CompressedLeast(src: seq<byte>)
    requires src != []
    ensures 273 * (8 * |Compressed(src)| - 17) >= 25 * |src|
    ensures |src| >= 0x8000 ==> 273 * (8 * |Compressed(src)| - 33) >= 25 * |src|
  {
    hide Items, Compressed, BodyBytes, TotalCovered;
    var items := Items(src, 0, Fresh());
    CompressedLength(src);
    ItemsCover(src, 0, Fresh());
    ItemsCost(items);
  }

  // An input that compresses as well as that.

  /** The bytes 0, 0, 1 over and over. */
  function Triples(n: nat): seq<byte> {
    seq(n, i => if i % 3 == 2 then 1 else 0)
  }

  const WORD: bv32 := 0x0001_0000
  const WORD_SLOT: nat := 16

  lemma {:induction false} TripleWords()
    ensures Slot(WORD) == WORD_SLOT && Slot(0x0000_0100) != WORD_SLOT && Slot(0x0100_0001) != WORD_SLOT
  {
  }

  lemma {:induction false} TripleLoads()
    ensures Load32([0, 0, 1, 0], 0) == WORD && Load32([0, 1, 0, 0], 0) == 0x0000_0100
    ensures Load32([1, 0, 0, 1], 0) == 0x0100_0001
  {
  }

  lemma {:induction false} LoadSame(s: seq<byte>, p: nat, t: seq<byte>)
    requires p + 4 <= |s| && |t| == 4 && s[p] == t[0] && s[p + 1] == t[1] && s[p + 2] == t[2] && s[p + 3] == t[3]
    ensures Load32(s, p) == Load32(t, 0)
  {
  }

  /** The word read at each phase, and the slot it goes to. */
  lemma {:induction false} WordAt(n: nat, p: nat)
    requires p + 4 <= n
    ensures p % 3 == 0 ==> Load32(Triples(n), p) == WORD
    ensures Slot(Load32(Triples(n), p)) == WORD_SLOT <==> p % 3 == 0
  {
    hide Load32, Slot;
    TripleWords();
    TripleLoads();
    var s := Triples(n);
    if p % 3 == 0 {
      LoadSame(s, p, [0, 0, 1, 0]);
    } else if p % 3 == 1 {
      LoadSame(s, p, [0, 1, 0, 0]);
    } else {
      LoadSame(s, p, [1, 0, 0, 1]);
    }
  }

  /** The table knows an earlier phase-0 position. */
  ghost predicate Primed(t: Tables, p: nat) {
    Valid(t) && 0 <= t.offset[WORD_SLOT] && t.offset[WORD_SLOT] + 3 <= p && t.offset[WORD_SLOT] % 3 == 0
    && t.cache[WORD_SLOT] == WORD
  }

  lemma {:induction false} ExtendFull(n: nat, o: nat, p: nat, t: nat, limit: nat)
    requires t <= limit && p + limit <= n && o <= p && o % 3 == p % 3
    ensures Extend(Triples(n), o, p, t, limit) == limit
    decreases limit - t
  {
    if t < limit {
      SamePhase(o, p, t);
      ExtendFull(n, o, p, t + 1, limit);
    }
  }

  /** While positions are searched, a primed table gives a back-reference of the greatest length allowed. */
  lemma {:induction false} LongMatch(n: nat, p: nat, t: Tables)
    requires p % 3 == 0 && 0 < p && Searches(Triples(n), p) && Primed(t, p)
    ensures NextItem(Triples(n), p, t) == Match(WORD_SLOT, 2 + Limit(Triples(n), p))
    ensures Primed(NextTables(Triples(n), p, t), p + 3)
  {
    hide Load32, Slot, Extend, Limit, Triples;
    var s := Triples(n);
    TriplesLength(n);
    WordAt(n, p);
    TripleWords();
    SameWord(WORD);
    var o := t.offset[WORD_SLOT];
    SamePhase(o, p, 2);
    ExtendFull(n, o + 2, p + 2, 1, Limit(s, p));
  }

  lemma {:induction false} SameWord(v: bv32)
    ensures (v ^ v) & 0x00FF_FFFF == 0
  {
  }

  lemma {:induction false} SamePhase(a: nat, b: nat, t: nat)
    requires a % 3 == b % 3
    ensures (a + t) % 3 == (b + t) % 3
  {
  }

  /** What is left is never longer compressed than it is. */
  lemma {:induction false} ItemsAtMost(src: seq<byte>, p: nat, t: Tables)
    requires Valid(t) && p <= |src|
    ensures BodyBytes(Items(src, p, t)) <= |src| - p && |Items(src, p, t)| <= |src| - p
    decreases |src| - p
  {
    hide NextItem, NextTables, Body;
    if p < |src| {
      var x := NextItem(src, p, t);
      ItemsAtMost(src, p + Covered(x), NextTables(src, p, t));
      ItemsFirst(src, p, t);
    }
  }

  lemma {:induction false} ItemsFirst(src: seq<byte>, p: nat, t: Tables)
    requires Valid(t) && p < |src|
    ensures
      var x := NextItem(src, p, t);
      var rest := Items(src, p + Covered(x), NextTables(src, p, t));
      && |Items(src, p, t)| == 1 + |rest|
      && BodyBytes(Items(src, p, t)) == |Body(x)| + BodyBytes(rest)
  {
    hide NextItem, NextTables, Body;
    var x := NextItem(src, p, t);
    assert Items(src, p, t)[1..] == Items(src, p + Covered(x), NextTables(src, p, t));
  }

  /** From a primed table on, 273 bytes cost three bytes and a flag. */
  lemma {:induction false} PrimedItems(n: nat, p: nat, t: Tables)
    requires p <= n && p % 3 == 0 && 0 < p && Primed(t, p)
    ensures
      var items := Items(Triples(n), p, t);
      |items| <= (n - p) / 273 + 10 && BodyBytes(items) <= 3 * ((n - p) / 273) + 10
    decreases n - p
  {
    hide Triples, NextItem, NextTables, Body, BodyBytes, Items;
    var s := Triples(n);
    TriplesLength(n);
    if p + 11 <= n {
      LongMatch(n, p, t);
      ItemsFirst(s, p, t);
      MatchBody(WORD_SLOT, 2 + Limit(s, p));
      var p' := p + 2 + Limit(s, p);
      if n - p - 3 >= 271 {
        PrimedItems(n, p', NextTables(s, p, t));
      } else {
        ItemsAtMost(s, p', NextTables(s, p, t));
      }
    } else {
      ItemsAtMost(s, p, t);
    }
  }

  lemma {:induction false} TriplesLength(n: nat)
    ensures |Triples(n)| == n
  {
  }

  lemma {:induction false} MatchBody(h: nat, len: nat)
    requires Wellformed(Match(h, len))
    ensures |Body(Match(h, len))| <= 3
  {
  }

  /** Too early for a back-reference. */
  lemma {:induction false} EarlyLiteral(src: seq<byte>, p: nat, t: Tables)
    requires Valid(t) && p < |src| && p < 3
    ensures NextItem(src, p, t).Literal?
  {
    hide Load32, Slot;
  }

  lemma {:induction false} PutPrimes(n: nat, t: Tables, p: nat)
    requires p + 11 <= n && p < 3 && Valid(t) && (p == 0 || (t.offset[WORD_SLOT] == 0 && t.cache[WORD_SLOT] == WORD))
    ensures
      var t' := NextTables(Triples(n), p, t);
      t'.offset[WORD_SLOT] == 0 && t'.cache[WORD_SLOT] == WORD
  {
    hide Load32, Slot;
    WordAt(n, p);
  }

  lemma {:induction false} EarlyItem(n: nat, p: nat, t: Tables)
    requires p + 11 <= n && p < 3 && Valid(t) && (p == 0 || (t.offset[WORD_SLOT] == 0 && t.cache[WORD_SLOT] == WORD))
    ensures
      var t' := NextTables(Triples(n), p, t);
      var items, rest := Items(Triples(n), p, t), Items(Triples(n), p + 1, t');
      && t'.offset[WORD_SLOT] == 0 && t'.cache[WORD_SLOT] == WORD
      && |items| == 1 + |rest| && BodyBytes(items) == 1 + BodyBytes(rest)
  {
    hide NextItem, NextTables, BodyBytes, Items;
    EarlyLiteral(Triples(n), p, t);
    PutPrimes(n, t, p);
    ItemsFirst(Triples(n), p, t);
  }

  lemma {:induction false} TriplesItems(n: nat)
    requires 14 <= n
    ensures
      var items := Items(Triples(n), 0, Fresh());
      |items| <= (n - 3) / 273 + 13 && BodyBytes(items) <= 3 * ((n - 3) / 273) + 13
  {
    hide Triples, NextTables, BodyBytes, Items;
    TriplesLength(n);
    var s := Triples(n);
    var t1 := NextTables(s, 0, Fresh());
    var t2 := NextTables(s, 1, t1);
    var t3 := NextTables(s, 2, t2);
    EarlyItem(n, 0, Fresh());
    EarlyItem(n, 1, t1);
    EarlyItem(n, 2, t2);
    PrimedItems(n, 3, t3);
  }

  /** Triples come within 19 bytes of the bound that holds for every input. */
  lemma {:induction false} TriplesCompressed(n: nat)
    requires 14 <= n
    ensures 8 * |Compressed(Triples(n))| <= 25 * ((n - 3) / 273) + 8 * 21 + 13
  {
    hide Triples, Compressed, BodyBytes, Items;
    TriplesLength(n);
    CompressedLength(Triples(n));
    TriplesItems(n);
  }
}
