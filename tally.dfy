/**
 * Frequency maps as the core builds them in its `forEach` loops:
 * `m.set(k, (m.get(k) || 0) + 1)` and `m.set(k, (m.get(k) || 0) + w)`.
 */
module Tally {

  /** `m.get(k) || 0` on a count map. */
  function Get(m: map<string, int>, k: string): int
  {
    if k in m then m[k] else 0
  }

  /** `m.get(k) || 0` on a sum map. */
  function GetSum(m: map<string, real>, k: string): real
  {
    if k in m then m[k] else 0.0
  }

  /** One `m.set(k, (m.get(k) || 0) + 1)`. */
  function Bump(m: map<string, int>, k: string): map<string, int>
  {
    m[k := Get(m, k) + 1]
  }

  /** One `m.set(k, (m.get(k) || 0) + w)`. */
  function AddTo(m: map<string, real>, k: string, w: real): map<string, real>
  {
    m[k := GetSum(m, k) + w]
  }

  /** Bumping every key of `ks` in turn, first to last. */
  function AddCounts(m: map<string, int>, ks: seq<string>): map<string, int>
  {
    if ks == [] then m else Bump(AddCounts(m, ks[..|ks| - 1]), ks[|ks| - 1])
  }

  /** Adding `w` to every key of `ks` in turn, first to last. */
  function AddWeight(m: map<string, real>, ks: seq<string>, w: real): map<string, real>
  {
    if ks == [] then m else AddTo(AddWeight(m, ks[..|ks| - 1], w), ks[|ks| - 1], w)
  }

  /** After the bumps a key is present iff it was before or occurs in `ks`, and its count grew by its occurrences. */
  lemma {:induction false} AddCountsCounts(m: map<string, int>, ks: seq<string>, k: string)
    ensures k in AddCounts(m, ks) <==> k in m || k in ks
    ensures Get(AddCounts(m, ks), k) == Get(m, k) + multiset(ks)[k]
  {
    if ks != [] {
      var init := ks[..|ks| - 1];
      AddCountsCounts(m, init, k);
      assert ks == init + [ks[|ks| - 1]];
    }
  }

  /** `w` added `n` times (that is, `w * n`, kept linear for the solver). */
  function Scale(w: real, n: nat): real
  {
    if n == 0 then 0.0 else Scale(w, n - 1) + w
  }

  lemma {:induction false} ScaleIsProduct(w: real, n: nat)
    ensures Scale(w, n) == w * (n as real)
  {
    if n > 0 {
      ScaleIsProduct(w, n - 1);
      assert w * (n as real) == w * ((n - 1) as real) + w;
    }
  }

  /** After the additions a key is present iff it was before or occurs in `ks`, and its sum grew by `w` per occurrence. */
  lemma {:induction false} AddWeightSums(m: map<string, real>, ks: seq<string>, w: real, k: string)
    ensures k in AddWeight(m, ks, w) <==> k in m || k in ks
    ensures GetSum(AddWeight(m, ks, w), k) == GetSum(m, k) + Scale(w, multiset(ks)[k])
  {
    if ks != [] {
      var init := ks[..|ks| - 1];
      AddWeightSums(m, init, w, k);
      assert ks == init + [ks[|ks| - 1]];
    }
  }
}
