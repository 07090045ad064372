/** Small shared vocabulary: an Option type and the few string and
    sequence operations that both the browser client and the server use. */
module Base {

  datatype Option<+T> = None | Some(value: T)

  /** `sub` occurs in `s` at position `k`. */
  predicate OccursAt(s: string, sub: string, k: nat)
  {
    k + |sub| <= |s| && s[k..k + |sub|] == sub
  }

  /** Python's `sub in s` and JavaScript's `s.includes(sub)`. */
  predicate Contains(s: string, sub: string)
  {
    exists k: nat | k <= |s| :: OccursAt(s, sub, k)
  }

  /** Index of the first occurrence of a non-empty `sub` in `s`, or |s|
      when there is none. */
  function FirstOccurrence(s: string, sub: string): (k: nat)
    requires |sub| > 0
    ensures k <= |s|
    ensures k < |s| <==> Contains(s, sub)
    ensures k < |s| ==> OccursAt(s, sub, k)
    ensures forall j: nat :: j < k ==> !OccursAt(s, sub, j)
  {
    FirstOccurrenceFrom(s, sub, 0)
  }

  function FirstOccurrenceFrom(s: string, sub: string, from: nat): (k: nat)
    requires |sub| > 0 && from <= |s|
    requires forall j: nat :: j < from ==> !OccursAt(s, sub, j)
    ensures from <= k <= |s|
    ensures k < |s| ==> OccursAt(s, sub, k)
    ensures forall j: nat :: j < k ==> !OccursAt(s, sub, j)
    ensures k == |s| ==> !Contains(s, sub)
    decreases |s| - from
  {
    if from == |s| then |s|
    else if OccursAt(s, sub, from) then from
    else FirstOccurrenceFrom(s, sub, from + 1)
  }

  /** Python's `s.split(sep)[0]` and JavaScript's `s.split(sep)[0]`
      for a non-empty separator: everything before the first `sep`. */
  function BeforeFirst(s: string, sep: string): (r: string)
    requires |sep| > 0
    ensures r <= s
    ensures !Contains(s, sep) ==> r == s
    ensures Contains(s, sep) ==> OccursAt(s, sep, |r|)
  {
    s[..FirstOccurrence(s, sep)]
  }

  /** No element occurs twice. */
  predicate Distinct<T(==)>(s: seq<T>)
  {
    forall i, j :: 0 <= i < j < |s| ==> s[i] != s[j]
  }

  lemma DistinctAppend<T>(a: seq<T>, b: seq<T>)
    requires Distinct(a) && Distinct(b)
    requires forall x :: x in a ==> x !in b
    ensures Distinct(a + b)
  {
    forall i, j | 0 <= i < j < |a + b| ensures (a + b)[i] != (a + b)[j] {
      if i < |a| && j >= |a| {
        assert (a + b)[i] in a && (a + b)[j] in b;
      }
    }
  }
}
