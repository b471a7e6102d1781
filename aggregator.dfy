/**
 The fractional-credit aggregation of `main` in src/analyze_sam.py (lines
 59-77): every read of a pivot's table spreads its weight evenly over the
 distinct datasets it hit, in row `i` of the confusion matrix.

 `Contribution` is the specification of the amounts one pivot adds to its row,
 `TotalWeight` that of the `total_entries` counter; `ConfusionMatrix` is the
 matrix the source updates in place, with the loops proved against them.
 */
module Aggregator {
  import opened Collector
  import opened Sums

  /** A set holding exactly the elements of `hits` has at most `|hits|` members, and one at least when there are hits. */
  lemma {:induction false} DistinctBounds(hits: seq<nat>, s: set<nat>)
    requires forall d :: d in s <==> d in hits
    ensures |s| <= |hits|
    ensures hits != [] ==> |s| >= 1
    decreases |hits|
  {
    if hits != [] {
      var init, last := hits[..|hits| - 1], hits[|hits| - 1];
      var before := set d | d in init;
      DistinctBounds(init, before);
      assert s == before + {last} by {
        forall d ensures d in hits <==> d in init || d == last {
          if d in hits {
            var q :| 0 <= q < |hits| && hits[q] == d;
            if q < |hits| - 1 {
              assert init[q] == d;
            }
          }
        }
      }
      if last in before {
        assert s == before;
      } else {
        assert |s| == |before| + 1;
      }
    }
  }

  /**
   The distinct datasets a read hit, `set(read_mappings[key][1:])` (line 65):
   they are exactly the indices of the hit list, there are no more of them
   than hits, and at least one when the read hit anything, so the divisions
   by `len(curr_set)` at lines 72 and 74 are defined.
   */
  function HitSet(e: Entry): (s: set<nat>)
    ensures forall d :: d in s <==> d in e.hits
    ensures |s| <= |e.hits|
    ensures e.hits != [] ==> |s| >= 1
  {
    var s := set d | d in e.hits;
    DistinctBounds(e.hits, s);
    s
  }

  /**
   What a read counts for in `total_entries` and in its row: its stored length
   in MEM mode (line 67), one in half-MEM mode (line 69), whatever was stored.
   */
  function ReadWeight(mode: Mode, e: Entry): real
  {
    if mode.Mems? then e.weight else 1.0
  }

  /** The amount each dataset of the hit set receives (lines 72 and 74). */
  function Share(mode: Mode, e: Entry): real
    requires |HitSet(e)| > 0
  {
    if mode.Mems? then 1.0 / |HitSet(e)| as real * e.weight else 1.0 / |HitSet(e)| as real
  }

  /** The amount the read adds to column `d`: its share if it hit `d`, nothing otherwise. */
  function Credit(mode: Mode, e: Entry, d: nat): real
  {
    if d in HitSet(e) then Share(mode, e) else 0.0
  }

  /** What one read adds to columns `0 .. m-1`. */
  function ReadRow(mode: Mode, e: Entry, m: nat): (row: seq<real>)
    ensures |row| == m && forall d :: 0 <= d < m ==> row[d] == Credit(mode, e, d)
  {
    seq(m, d requires 0 <= d => Credit(mode, e, d))
  }

  /** The datasets of `s` below `m`. */
  function Below(s: set<nat>, m: nat): (b: set<nat>)
    ensures forall d :: d in b <==> d in s && d < m
  {
    set d | d in s && d < m
  }

  /** Taking one more column takes one more dataset exactly when it was hit. */
  lemma BelowNext(s: set<nat>, m: nat)
    ensures |Below(s, m + 1)| == |Below(s, m)| + (if m in s then 1 else 0)
  {
    if m in s {
      assert Below(s, m + 1) == Below(s, m) + {m};
    } else {
      assert Below(s, m + 1) == Below(s, m);
    }
  }

  /** The first `m` columns of a read's row hold one share per hit dataset below `m`. */
  lemma {:induction false} ReadRowPrefixSum(mode: Mode, e: Entry, m: nat)
    requires |HitSet(e)| > 0
    ensures Sum(ReadRow(mode, e, m)) == |Below(HitSet(e), m)| as real * Share(mode, e)
    decreases m
  {
    if m > 0 {
      var s, share := HitSet(e), Share(mode, e);
      ReadRowPrefixSum(mode, e, m - 1);
      ReadRowNext(mode, e, m - 1);
      assert Credit(mode, e, m - 1) == if m - 1 in s then share else 0.0;
      BelowNext(s, m - 1);
      ShareStep(|Below(s, m - 1)| as real, share, m - 1 in s);
    }
  }

  /** One more column adds the read's credit for it. */
  lemma ReadRowNext(mode: Mode, e: Entry, m: nat)
    ensures Sum(ReadRow(mode, e, m + 1)) == Sum(ReadRow(mode, e, m)) + Credit(mode, e, m)
  {
    assert ReadRow(mode, e, m + 1)[..m] == ReadRow(mode, e, m);
  }

  /** One more share on top of `before` shares. */
  lemma ShareStep(before: real, share: real, hit: bool)
    ensures before * share + (if hit then share else 0.0) == (before + if hit then 1.0 else 0.0) * share
  {
  }

  /**
   A read whose hits are all below `n` adds to its row, in total, exactly its
   weight: its stored length in MEM mode, one in half-MEM mode (lines 63-74).
   */
  lemma ReadRowSum(mode: Mode, e: Entry, n: nat)
    requires e.hits != []
    requires forall k :: 0 <= k < |e.hits| ==> e.hits[k] < n
    ensures Sum(ReadRow(mode, e, n)) == ReadWeight(mode, e)
  {
    var s := HitSet(e);
    assert e.hits[0] in s;
    ReadRowPrefixSum(mode, e, n);
    assert Below(s, n) == s;
    var size := |s| as real;
    assert size * (1.0 / size) == 1.0;
  }

  /** Each dataset of the hit set gets `1/|S|` of the weight, and only those datasets get anything. */
  lemma CreditSplit(mode: Mode, e: Entry, d: nat)
    ensures d in e.hits ==> Credit(mode, e, d) * |HitSet(e)| as real == ReadWeight(mode, e)
    ensures d !in e.hits ==> Credit(mode, e, d) == 0.0
  {
    if d in e.hits {
      var size := |HitSet(e)| as real;
      assert d in HitSet(e);
      assert size * (1.0 / size) == 1.0;
    }
  }

  /**
   Repeated indices in the hit list make no difference: two entries with the
   same weight and the same datasets, however often listed, credit alike.
   */
  lemma DuplicateHitsIgnored(mode: Mode, e: Entry, e': Entry, n: nat)
    requires e.weight == e'.weight
    requires forall d :: d in e.hits <==> d in e'.hits
    ensures ReadRow(mode, e, n) == ReadRow(mode, e', n)
  {
    assert HitSet(e) == HitSet(e');
    forall d | 0 <= d < n ensures ReadRow(mode, e, n)[d] == ReadRow(mode, e', n)[d] {
      assert Credit(mode, e, d) == Credit(mode, e', d);
    }
  }

  /** A read of weight 2 that hit datasets 0 and 1 adds 1 to each of the two cells. */
  lemma SplitCreditExample(noise: real)
    ensures ReadRow(Mems(noise), Entry(2.0, [0, 1]), 2) == [1.0, 1.0]
  {
    var e := Entry(2.0, [0, 1]);
    assert HitSet(e) == {0, 1};
    assert |HitSet(e)| == 2;
    assert ReadRow(Mems(noise), e, 2)[0] == 1.0 && ReadRow(Mems(noise), e, 2)[1] == 1.0;
  }

  /** Every read credits a non-negative amount, given non-negative MEM weights. */
  lemma CreditNonNegative(mode: Mode, e: Entry, d: nat)
    requires mode.Mems? ==> e.weight >= 0.0
    ensures Credit(mode, e, d) >= 0.0
  {
    if d in HitSet(e) {
      var size := |HitSet(e)| as real;
      assert 1.0 / size > 0.0;
    }
  }

  /** Every name of `keys` has an entry in the table. */
  ghost predicate Known(tab: Table, keys: seq<string>)
  {
    forall q :: 0 <= q < |keys| ==> keys[q] in tab.entries
  }

  /** What the reads `keys` of the table add to columns `0 .. n-1`, read by read. */
  function Contribution(mode: Mode, tab: Table, keys: seq<string>, n: nat): (row: seq<real>)
    requires Known(tab, keys)
    ensures |row| == n
    decreases |keys|
  {
    if keys == [] then Zeros(n)
    else AddRows(Contribution(mode, tab, keys[..|keys| - 1], n), ReadRow(mode, tab.entries[keys[|keys| - 1]], n))
  }

  /** The `total_entries` counter after the reads `keys` (lines 66-69). */
  function TotalWeight(mode: Mode, tab: Table, keys: seq<string>): real
    requires Known(tab, keys)
    decreases |keys|
  {
    if keys == [] then 0.0
    else TotalWeight(mode, tab, keys[..|keys| - 1]) + ReadWeight(mode, tab.entries[keys[|keys| - 1]])
  }

  /** The amounts of a well-formed table sum to its total weight (the printed `total_entries`). */
  lemma {:induction false} ContributionSum(mode: Mode, tab: Table, keys: seq<string>, n: nat)
    requires TableValid(tab, n) && Known(tab, keys)
    ensures Sum(Contribution(mode, tab, keys, n)) == TotalWeight(mode, tab, keys)
    decreases |keys|
  {
    if keys == [] {
      SumZeros(n);
    } else {
      var init := keys[..|keys| - 1];
      var e := tab.entries[keys[|keys| - 1]];
      ContributionSum(mode, tab, init, n);
      SumAddRows(Contribution(mode, tab, init, n), ReadRow(mode, e, n));
      ReadRowSum(mode, e, n);
    }
  }

  /** With non-negative MEM weights every amount added is non-negative. */
  lemma {:induction false} ContributionNonNegative(mode: Mode, tab: Table, keys: seq<string>, n: nat)
    requires WeightsValid(mode, tab) && Known(tab, keys)
    ensures forall c :: 0 <= c < n ==> Contribution(mode, tab, keys, n)[c] >= 0.0
    decreases |keys|
  {
    if keys != [] {
      var init := keys[..|keys| - 1];
      var e := tab.entries[keys[|keys| - 1]];
      ContributionNonNegative(mode, tab, init, n);
      forall c | 0 <= c < n ensures Contribution(mode, tab, keys, n)[c] >= 0.0 {
        CreditNonNegative(mode, e, c);
      }
    }
  }

  /** One more read adds its own row. */
  lemma ContributionNext(mode: Mode, tab: Table, keys: seq<string>, q: nat, n: nat)
    requires Known(tab, keys) && q < |keys|
    ensures Known(tab, keys[..q]) && Known(tab, keys[..q + 1])
    ensures Contribution(mode, tab, keys[..q + 1], n) == AddRows(Contribution(mode, tab, keys[..q], n), ReadRow(mode, tab.entries[keys[q]], n))
    ensures TotalWeight(mode, tab, keys[..q + 1]) == TotalWeight(mode, tab, keys[..q]) + ReadWeight(mode, tab.entries[keys[q]])
  {
    assert keys[..q + 1][..q] == keys[..q];
  }

  /**
   The confusion matrix: an `n`-by-`n` array of cells, row `i` for the reads
   of pivot `i`, column `d` for the dataset they were credited to.
   */
  class ConfusionMatrix {
    const n: nat
    const cells: array2<real>

    ghost predicate Valid()
      reads this
    {
      cells.Length0 == n && cells.Length1 == n
    }

    /** The current cells, row by row. */
    function Rows(): (m: seq<seq<real>>)
      requires Valid()
      reads this, cells
      ensures IsSquare(m, n)
      ensures forall r, c :: 0 <= r < n && 0 <= c < n ==> m[r][c] == cells[r, c]
    {
      Grid(cells, n)
    }

    /** Every cell starts at zero (line 18). */
    constructor (n: nat)
      ensures Valid() && this.n == n && fresh(cells)
      ensures forall r, c :: 0 <= r < n && 0 <= c < n ==> cells[r, c] == 0.0
    {
      this.n := n;
      cells := new real[n, n]((r, c) => 0.0);
    }

    /**
     Credits one read to row `i`: each dataset of its hit set gets its share
     (lines 64-74); no other cell changes.
     */
    method CreditRead(i: nat, mode: Mode, e: Entry)
      requires Valid() && i < n
      requires forall k :: 0 <= k < |e.hits| ==> e.hits[k] < n
      modifies cells
      ensures forall c :: 0 <= c < n ==> cells[i, c] == old(cells[i, c]) + Credit(mode, e, c)
      ensures forall r, c :: 0 <= r < n && 0 <= c < n && r != i ==> cells[r, c] == old(cells[r, c])
    {
      var memLen := e.weight;
      var currSet := HitSet(e);
      var rest := currSet;
      while rest != {}
        invariant rest <= currSet
        invariant forall c :: 0 <= c < n ==> cells[i, c] == old(cells[i, c]) + (if c in currSet - rest then Credit(mode, e, c) else 0.0)
        invariant forall r, c :: 0 <= r < n && 0 <= c < n && r != i ==> cells[r, c] == old(cells[r, c])
        decreases |rest|
      {
        var d :| d in rest;
        if mode.Mems? {
          cells[i, d] := cells[i, d] + 1.0 / |currSet| as real * memLen;
        } else {
          cells[i, d] := cells[i, d] + 1.0 / |currSet| as real;
        }
        rest := rest - {d};
      }
    }

    /**
     The aggregation of one pivot (lines 59-77): every read of the table, in
     insertion order, is credited to row `i`. Returns `total_entries`.
     */
    method AddPivot(i: nat, mode: Mode, tab: Table) returns (total: real)
      requires Valid() && i < n && TableValid(tab, n)
      modifies cells
      ensures Known(tab, tab.order)
      ensures total == TotalWeight(mode, tab, tab.order)
      ensures forall c :: 0 <= c < n ==> cells[i, c] == old(cells[i, c]) + Contribution(mode, tab, tab.order, n)[c]
      ensures forall r, c :: 0 <= r < n && 0 <= c < n && r != i ==> cells[r, c] == old(cells[r, c])
    {
      total := 0.0;
      var q := 0;
      assert Known(tab, tab.order[..q]);
      while q < |tab.order|
        invariant 0 <= q <= |tab.order|
        invariant Known(tab, tab.order[..q])
        invariant total == TotalWeight(mode, tab, tab.order[..q])
        invariant forall c :: 0 <= c < n ==> cells[i, c] == old(cells[i, c]) + Contribution(mode, tab, tab.order[..q], n)[c]
        invariant forall r, c :: 0 <= r < n && 0 <= c < n && r != i ==> cells[r, c] == old(cells[r, c])
      {
        var key := tab.order[q];
        var entry := tab.entries[key];
        ContributionNext(mode, tab, tab.order, q, n);
        if mode.Mems? {
          total := total + entry.weight;
        } else {
          total := total + 1.0;
        }
        CreditRead(i, mode, entry);
        q := q + 1;
      }
      assert tab.order[..q] == tab.order;
    }
  }
}
