/**
 * `series.value_counts()` (ITN.py:100) and `series.value_counts(normalize=True)`
 * (ITN.py:119). pandas skips NaN by default, so only present values are
 * counted, and the shares are taken over the present values. Shares are
 * exact rationals here.
 */
module ValueCounts {
  import opened Frames

  /** How many cells of `vals` equal `v`. */
  function CountOf(vals: seq<Cell>, v: Cell): nat
    decreases |vals|
  {
    if vals == [] then 0 else (if vals[0] == v then 1 else 0) + CountOf(vals[1..], v)
  }

  /** How many cells of `vals` are not NaN. */
  function Present(vals: seq<Cell>): nat
    decreases |vals|
  {
    if vals == [] then 0 else (if vals[0] != Missing then 1 else 0) + Present(vals[1..])
  }

  /** The distinct non-NaN values of `vals`. */
  function Observed(vals: seq<Cell>): set<Cell>
  {
    set i | 0 <= i < |vals| && vals[i] != Missing :: vals[i]
  }

  /** `value_counts()`: each present value with the number of its occurrences. */
  function Counts(vals: seq<Cell>): map<Cell, nat>
  {
    map v | v in Observed(vals) :: CountOf(vals, v)
  }

  /** `value_counts(normalize=True)`: each present value with its share of the present cells. */
  function Shares(vals: seq<Cell>): map<Cell, real>
  {
    if Present(vals) == 0 then map[]
    else map v | v in Observed(vals) :: CountOf(vals, v) as real / Present(vals) as real
  }

  /** `keys` lists every element of `s` exactly once. */
  ghost predicate Enumerates(keys: seq<Cell>, s: set<Cell>)
  {
    && (forall i, j :: 0 <= i < j < |keys| ==> keys[i] != keys[j])
    && (forall c :: c in keys <==> c in s)
  }

  function SumCounts(keys: seq<Cell>, m: map<Cell, nat>): nat
    requires forall k :: k in keys ==> k in m
    decreases |keys|
  {
    if keys == [] then 0 else m[keys[0]] + SumCounts(keys[1..], m)
  }

  function SumShares(keys: seq<Cell>, m: map<Cell, real>): real
    requires forall k :: k in keys ==> k in m
    decreases |keys|
  {
    if keys == [] then 0.0 else m[keys[0]] + SumShares(keys[1..], m)
  }

  /** Σ over `keys` of the number of cells of `vals` equal to the key. */
  function Tally(keys: seq<Cell>, vals: seq<Cell>): nat
    decreases |keys|
  {
    if keys == [] then 0 else CountOf(vals, keys[0]) + Tally(keys[1..], vals)
  }

  // ---------------------------------------------------------------------

  lemma {:induction false} TallySplit(keys: seq<Cell>, v: Cell, rest: seq<Cell>)
    ensures Tally(keys, [v] + rest) == CountOf(keys, v) + Tally(keys, rest)
    decreases |keys|
  {
    if keys != [] {
      TallySplit(keys[1..], v, rest);
      assert ([v] + rest)[1..] == rest;
    }
  }

  lemma {:induction false} CountOfDistinct(keys: seq<Cell>, v: Cell)
    requires forall i, j :: 0 <= i < j < |keys| ==> keys[i] != keys[j]
    ensures CountOf(keys, v) == if v in keys then 1 else 0
    decreases |keys|
  {
    if keys != [] {
      CountOfDistinct(keys[1..], v);
      if keys[0] == v {
        assert v !in keys[1..] by {
          forall j | 0 <= j < |keys[1..]| ensures keys[1..][j] != v {
            assert keys[1 + j] != keys[0];
          }
        }
      }
    }
  }

  lemma {:induction false} TallyOfCover(keys: seq<Cell>, vals: seq<Cell>)
    requires forall i, j :: 0 <= i < j < |keys| ==> keys[i] != keys[j]
    requires Missing !in keys
    requires forall i :: 0 <= i < |vals| && vals[i] != Missing ==> vals[i] in keys
    ensures Tally(keys, vals) == Present(vals)
    decreases |vals|
  {
    if vals == [] {
      TallyOfEmpty(keys);
    } else {
      var v, rest := vals[0], vals[1..];
      assert vals == [v] + rest;
      TallySplit(keys, v, rest);
      CountOfDistinct(keys, v);
      forall i | 0 <= i < |rest| && rest[i] != Missing ensures rest[i] in keys {
        assert rest[i] == vals[i + 1];
      }
      TallyOfCover(keys, rest);
    }
  }

  lemma {:induction false} TallyOfEmpty(keys: seq<Cell>)
    ensures Tally(keys, []) == 0
    decreases |keys|
  {
    if keys != [] { TallyOfEmpty(keys[1..]); }
  }

  lemma {:induction false} SumCountsIsTally(keys: seq<Cell>, vals: seq<Cell>)
    requires forall k :: k in keys ==> k in Observed(vals)
    ensures SumCounts(keys, Counts(vals)) == Tally(keys, vals)
    decreases |keys|
  {
    if keys != [] { SumCountsIsTally(keys[1..], vals); }
  }

  lemma ObservedMembers(vals: seq<Cell>)
    ensures Missing !in Observed(vals)
    ensures forall i :: 0 <= i < |vals| && vals[i] != Missing ==> vals[i] in Observed(vals)
  {
  }

  /** The counts of `value_counts()` add up to the number of present cells
      (in whatever order the labels are listed). */
  lemma CountsSumToPresent(vals: seq<Cell>, keys: seq<Cell>)
    requires Enumerates(keys, Counts(vals).Keys)
    ensures SumCounts(keys, Counts(vals)) == Present(vals)
  {
    ObservedMembers(vals);
    SumCountsIsTally(keys, vals);
    TallyOfCover(keys, vals);
  }

  lemma {:induction false} CountOfBounds(vals: seq<Cell>, v: Cell)
    requires v != Missing
    ensures CountOf(vals, v) <= Present(vals)
    ensures v in vals ==> CountOf(vals, v) >= 1
    decreases |vals|
  {
    if vals != [] {
      CountOfBounds(vals[1..], v);
      if v in vals && vals[0] != v {
        assert v in vals[1..] by {
          var i :| 0 <= i < |vals| && vals[i] == v;
          assert vals[1..][i - 1] == v;
        }
      }
    }
  }

  lemma RatioInUnitInterval(c: nat, p: nat)
    requires 0 < c <= p
    ensures 0.0 < c as real / p as real <= 1.0
  {
    assert c as real <= p as real;
  }

  /** Each share lies in (0, 1], and the labels with a share are exactly the present values. */
  lemma SharesInUnitInterval(vals: seq<Cell>)
    ensures Shares(vals).Keys == Observed(vals)
    ensures forall v :: v in Shares(vals) ==> 0.0 < Shares(vals)[v] <= 1.0
  {
    ObservedMembers(vals);
    if Present(vals) == 0 {
      forall v | v in Observed(vals) ensures false {
        CountOfBounds(vals, v);
      }
    } else {
      forall v | v in Observed(vals)
        ensures 0.0 < Shares(vals)[v] <= 1.0
      {
        CountOfBounds(vals, v);
        assert Shares(vals)[v] == CountOf(vals, v) as real / Present(vals) as real;
        RatioInUnitInterval(CountOf(vals, v), Present(vals));
      }
    }
  }

  lemma SharesKeys(vals: seq<Cell>)
    requires Present(vals) > 0
    ensures Shares(vals).Keys == Observed(vals)
  {
  }

  lemma ShareOf(vals: seq<Cell>, v: Cell)
    requires Present(vals) > 0 && v in Observed(vals)
    ensures v in Shares(vals) && Shares(vals)[v] == CountOf(vals, v) as real / Present(vals) as real
  {
  }

  lemma DivisionBySelf(t: real)
    requires t > 0.0
    ensures t / t == 1.0
  {
  }

  lemma DivisionAdds(a: real, b: real, t: real)
    requires t > 0.0
    ensures a / t + b / t == (a + b) / t
  {
  }

  lemma {:induction false} SumSharesIsTally(keys: seq<Cell>, vals: seq<Cell>)
    requires Present(vals) > 0
    requires forall k :: k in keys ==> k in Observed(vals)
    ensures forall k :: k in keys ==> k in Shares(vals)
    ensures SumShares(keys, Shares(vals)) == Tally(keys, vals) as real / Present(vals) as real
    decreases |keys|
  {
    if keys != [] {
      SumSharesIsTally(keys[1..], vals);
      ShareOf(vals, keys[0]);
      DivisionAdds(CountOf(vals, keys[0]) as real, Tally(keys[1..], vals) as real, Present(vals) as real);
    }
  }

  /** For a run with at least one present label, the shares add up to 1. */
  lemma SharesSumToOne(vals: seq<Cell>, keys: seq<Cell>)
    requires Present(vals) > 0
    requires Enumerates(keys, Shares(vals).Keys)
    ensures SumShares(keys, Shares(vals)) == 1.0
  {
    SharesKeys(vals);
    assert forall k :: k in keys ==> k in Observed(vals);
    ObservedMembers(vals);
    assert forall i :: 0 <= i < |vals| && vals[i] != Missing ==> vals[i] in keys;
    assert Missing !in keys;
    SumSharesIsTally(keys, vals);
    TallyOfCover(keys, vals);
    DivisionBySelf(Present(vals) as real);
  }

  /** The keys of `keys` that `m` has a value for, in order. */
  function Among(keys: seq<Cell>, m: map<Cell, real>): (r: seq<Cell>)
    ensures forall k :: k in r <==> k in keys && k in m
    decreases |keys|
  {
    if keys == [] then []
    else (if keys[0] in m then [keys[0]] else []) + Among(keys[1..], m)
  }

  lemma {:induction false} AmongDistinct(keys: seq<Cell>, m: map<Cell, real>)
    requires forall i, j :: 0 <= i < j < |keys| ==> keys[i] != keys[j]
    ensures forall i, j :: 0 <= i < j < |Among(keys, m)| ==> Among(keys, m)[i] != Among(keys, m)[j]
    decreases |keys|
  {
    if keys != [] {
      AmongDistinct(keys[1..], m);
      var rest := Among(keys[1..], m);
      forall j | 0 <= j < |rest| ensures rest[j] != keys[0] {
        assert rest[j] in keys[1..];
      }
    }
  }

  /** Adding zero entries for absent labels leaves the sum unchanged. */
  lemma {:induction false} SumSharesZeroFilled(keys: seq<Cell>, dense: map<Cell, real>, m: map<Cell, real>)
    requires forall k :: k in keys ==> k in dense && dense[k] == (if k in m then m[k] else 0.0)
    ensures SumShares(keys, dense) == SumShares(Among(keys, m), m)
    decreases |keys|
  {
    if keys != [] {
      assert keys[0] in keys;
      SumSharesZeroFilled(keys[1..], dense, m);
      var among := Among(keys, m);
      if keys[0] in m {
        assert among == [keys[0]] + Among(keys[1..], m);
        assert among[1..] == Among(keys[1..], m);
      } else {
        assert among == [] + Among(keys[1..], m);
        assert dense[keys[0]] == 0.0;
        assert SumShares(keys, dense) == 0.0 + SumShares(keys[1..], dense);
        assert among == Among(keys[1..], m);
        assert SumShares(keys, dense) == SumShares(among, m);
      }
    }
  }

  /** A share map filled with zeros up to a larger label set still sums to 1. */
  lemma ZeroFilledSharesSumToOne(vals: seq<Cell>, keys: seq<Cell>, dense: map<Cell, real>)
    requires Present(vals) > 0
    requires forall i, j :: 0 <= i < j < |keys| ==> keys[i] != keys[j]
    requires forall c :: c in keys <==> c in dense
    requires Shares(vals).Keys <= dense.Keys
    requires forall k :: k in dense ==> dense[k] == (if k in Shares(vals) then Shares(vals)[k] else 0.0)
    ensures SumShares(keys, dense) == 1.0
  {
    var m := Shares(vals);
    SumSharesZeroFilled(keys, dense, m);
    AmongDistinct(keys, m);
    SharesSumToOne(vals, Among(keys, m));
  }
}
