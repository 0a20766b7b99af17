/** Small shared vocabulary: optional values and a few facts about sequences. */
module Prelude {

  datatype Option<+T> = None | Some(value: T)

  /** An item as a connector lists it; only the fields the import reads. */
  datatype RuntimeItem = RuntimeItem(externalId: string, title: string, sourceUrl: string)

  /** Where a store keeps its records: a workspace (or the global scope) and a connector. */
  datatype Scope = Scope(workspace: string, connector: string)

  /** A source identifier; a fresh one is drawn for every new data source. */
  type SourceId = nat

  ghost predicate NoDuplicates<T>(s: seq<T>) {
    forall i, j :: 0 <= i < j < |s| ==> s[i] != s[j]
  }

  function Min(a: int, b: int): int { if a <= b then a else b }

  function RMin(a: real, b: real): real { if a <= b then a else b }

  function RMax(a: real, b: real): real { if a >= b then a else b }

  /** How many elements have a property. */
  ghost function Number<T>(s: seq<T>, has: T -> bool): nat {
    |set k | 0 <= k < |s| && has(s[k])|
  }

  lemma NumberNext<T>(s: seq<T>, has: T -> bool)
    requires s != []
    ensures Number(s, has) == Number(s[..|s| - 1], has) + if has(s[|s| - 1]) then 1 else 0
  {
    var n := |s| - 1;
    var rest := set k | 0 <= k < |s[..n]| && has(s[..n][k]);
    assert (set k | 0 <= k < |s| && has(s[k])) == if has(s[n]) then rest + {n} else rest;
  }

  lemma NoneHas<T>(has: T -> bool)
    ensures Number([], has) == 0
  {
  }

  /** The sum of a sequence of reals. */
  ghost function Sum(s: seq<real>): real {
    if s == [] then 0.0 else Sum(s[..|s| - 1]) + s[|s| - 1]
  }

  /** A sum of non-negative terms no larger than `bound` is at most `bound` per term. */
  lemma {:induction false} SumBound(s: seq<real>, bound: real)
    requires forall i :: 0 <= i < |s| ==> 0.0 <= s[i] <= bound
    ensures 0.0 <= Sum(s) <= |s| as real * bound
  {
    if s != [] {
      SumBound(s[..|s| - 1], bound);
    }
  }
}
