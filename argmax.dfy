/**
 * The running-maximum scan that test and tune both perform: start from the
 * value 0 at index 0, walk the entries upwards, and take an entry whenever it
 * is greater than OR EQUAL to the best so far. Masked entries are passed over.
 */
module ArgMax {

  /** No entry masked. */
  function NoMask(n: nat): (r: seq<bool>)
    ensures |r| == n && forall j :: 0 <= j < n ==> !r[j]
  {
    seq(n, _ => false)
  }

  /** The (maximum, index) pair the scan holds after the first n entries. */
  function ScanArgMax(v: seq<real>, mask: seq<bool>, n: nat): (r: (real, nat))
    requires n <= |v| && n <= |mask|
    ensures n > 0 ==> r.1 < n
  {
    if n == 0 then (0.0, 0)
    else
      var r := ScanArgMax(v, mask, n - 1);
      if !mask[n - 1] && v[n - 1] >= r.0 then (v[n - 1], n - 1) else r
  }

  /** One more unmasked entry: the scan takes it when it reaches the best so far. */
  lemma ScanArgMaxStep(v: seq<real>, mask: seq<bool>, n: nat)
    requires n < |v| && n < |mask| && !mask[n]
    ensures var before := ScanArgMax(v, mask, n);
      ScanArgMax(v, mask, n + 1) == if v[n] >= before.0 then (v[n], n) else before
  {
  }

  /** Some unmasked entry lies among the first n. */
  predicate SomeUnmasked(mask: seq<bool>, n: nat)
    requires n <= |mask|
  {
    exists j :: 0 <= j < n && !mask[j]
  }

  /**
   * Over non-negative entries, the scan returns the maximum of the unmasked
   * entries and the LAST unmasked index that attains it; with every entry
   * masked it returns the initial (0, 0).
   */
  lemma {:induction false} ScanArgMaxSpec(v: seq<real>, mask: seq<bool>, n: nat)
    requires n <= |v| && n <= |mask|
    requires forall j :: 0 <= j < n && !mask[j] ==> v[j] >= 0.0
    ensures ScanArgMax(v, mask, n).0 >= 0.0
    ensures forall j :: 0 <= j < n && !mask[j] ==> v[j] <= ScanArgMax(v, mask, n).0
    ensures SomeUnmasked(mask, n) ==>
      var r := ScanArgMax(v, mask, n);
      && !mask[r.1] && v[r.1] == r.0
      && forall j :: r.1 < j < n && !mask[j] ==> v[j] < r.0
    ensures !SomeUnmasked(mask, n) ==> ScanArgMax(v, mask, n) == (0.0, 0)
  {
    if n > 0 {
      var m: nat := n - 1;
      ScanArgMaxSpec(v, mask, m);
      assert ScanArgMax(v, mask, m + 1) ==
        (var r := ScanArgMax(v, mask, m); if !mask[m] && v[m] >= r.0 then (v[m], m) else r);
      if !mask[m] {
        assert SomeUnmasked(mask, m + 1);
      } else if SomeUnmasked(mask, m + 1) {
        var j :| 0 <= j < m + 1 && !mask[j];
        assert SomeUnmasked(mask, m);
      }
    }
  }
}
