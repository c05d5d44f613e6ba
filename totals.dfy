/**
 * The per-category totals both files compute after the table walk
 * (parser.py and backup.py alike): for each category, the sum of the amounts
 * that are not `None`.
 */
module Totals {
  import opened Wrappers

  /** A record reduced to what the totals use: its category and its amount. */
  type Entry = (string, Option<nat>)

  /** The entries of a run of records, each read by `entry`, in record order. */
  function EntriesOf<R>(records: seq<R>, entry: R -> Entry): (es: seq<Entry>)
    ensures |es| == |records|
  {
    seq(|records|, i requires 0 <= i < |records| => entry(records[i]))
  }

  /** The sum of the non-`None` amounts of the entries in category `c`. */
  function CategorySum(entries: seq<Entry>, c: string): nat {
    if |entries| == 0 then 0
    else
      var last := entries[|entries| - 1];
      CategorySum(entries[..|entries| - 1], c) + (if last.0 == c && last.1.Some? then last.1.value else 0)
  }

  /** Some entry of category `c` has an amount (so `totals[c]` was touched). */
  predicate HasAmountIn(entries: seq<Entry>, c: string) {
    exists i :: 0 <= i < |entries| && entries[i].0 == c && entries[i].1.Some?
  }

  /**
   * The totals loop of the `defaultdict`: the categories with at least one
   * amount are the keys, and each maps to the sum of its amounts.
   */
  method SumByCategory(entries: seq<Entry>) returns (totals: map<string, nat>)
    ensures forall c :: c in totals <==> HasAmountIn(entries, c)
    ensures forall c :: c in totals ==> totals[c] == CategorySum(entries, c)
  {
    totals := map[];
    for i := 0 to |entries|
      invariant forall c :: c in totals <==> HasAmountIn(entries[..i], c)
      invariant forall c :: c in totals ==> totals[c] == CategorySum(entries[..i], c)
    {
      var next := entries[..i + 1];
      assert next[..i] == entries[..i];
      assert forall c :: HasAmountIn(next, c) <==> HasAmountIn(entries[..i], c) || (entries[i].0 == c && entries[i].1.Some?) by {
        forall c ensures HasAmountIn(next, c) <==> HasAmountIn(entries[..i], c) || (entries[i].0 == c && entries[i].1.Some?) {
          if HasAmountIn(entries[..i], c) {
            var j :| 0 <= j < i && entries[..i][j].0 == c && entries[..i][j].1.Some?;
            assert next[j] == entries[..i][j];
          }
          if HasAmountIn(next, c) {
            var j :| 0 <= j < i + 1 && next[j].0 == c && next[j].1.Some?;
            if j < i { assert entries[..i][j] == next[j]; }
          }
        }
      }
      var (category, amount) := entries[i];
      if amount.Some? {
        var previous := if category in totals then totals[category] else 0;
        assert !HasAmountIn(entries[..i], category) ==> CategorySum(entries[..i], category) == 0 by {
          if !HasAmountIn(entries[..i], category) { NoAmountSumsToZero(entries[..i], category); }
        }
        totals := totals[category := previous + amount.value];
      }
    }
    assert entries[..|entries|] == entries;
  }

  lemma {:induction false} NoAmountSumsToZero(entries: seq<Entry>, c: string)
    requires !HasAmountIn(entries, c)
    ensures CategorySum(entries, c) == 0
  {
    if |entries| > 0 {
      NoAmountSumsToZero(entries[..|entries| - 1], c);
    }
  }

  /** Totals add up over consecutive stretches of records (per table, per page). */
  lemma {:induction false} CategorySumAppend(a: seq<Entry>, b: seq<Entry>, c: string)
    ensures CategorySum(a + b, c) == CategorySum(a, c) + CategorySum(b, c)
    decreases |b|
  {
    if |b| > 0 {
      var b' := b[..|b| - 1];
      assert (a + b)[..|a + b| - 1] == a + b';
      CategorySumAppend(a, b', c);
    } else {
      assert a + b == a;
    }
  }
}
