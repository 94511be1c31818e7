/** PHP's ordered arrays with string keys, as a sequence of key/value pairs.
    Assigning to a key that is present replaces its value where it stands;
    assigning to a new key appends it. */
module Assoc {
  import opened Common

  function Keys<V>(l: seq<(string, V)>): (ks: seq<string>)
    ensures |ks| == |l|
  {
    seq(|l|, i requires 0 <= i < |l| => l[i].0)
  }

  /** Position of the first entry with key `k`, or `|l|` when there is none. */
  function IndexOf<V>(l: seq<(string, V)>, k: string): (i: nat)
    ensures i <= |l|
    ensures i < |l| ==> l[i].0 == k
    ensures forall j :: 0 <= j < i ==> l[j].0 != k
  {
    if |l| == 0 then 0
    else if l[0].0 == k then 0
    else 1 + IndexOf(l[1..], k)
  }

  /** `array_key_exists(k, l) ? l[k] : null`. */
  function Lookup<V>(l: seq<(string, V)>, k: string): (r: Option<V>)
    ensures r.Some? <==> k in Keys(l)
  {
    var i := IndexOf(l, k);
    if i < |l| then
      assert Keys(l)[i] == k;
      Some(l[i].1)
    else
      assert forall j :: 0 <= j < |l| ==> Keys(l)[j] != k;
      None
  }

  /** No key occurs twice, as in every PHP array. */
  predicate UniqueKeys<V>(l: seq<(string, V)>) {
    forall i, j :: 0 <= i < j < |l| ==> l[i].0 != l[j].0
  }

  /** `l[k] = v`. */
  function Put<V>(l: seq<(string, V)>, k: string, v: V): (r: seq<(string, V)>)
    ensures k in Keys(l) ==> Keys(r) == Keys(l)
    ensures k !in Keys(l) ==> Keys(r) == Keys(l) + [k]
    ensures Lookup(r, k) == Some(v)
    ensures forall j :: j != k ==> Lookup(r, j) == Lookup(l, j)
    ensures forall i :: 0 <= i < |l| && l[i].0 != k ==> r[i] == l[i]
    ensures UniqueKeys(l) ==> UniqueKeys(r)
  {
    var i := IndexOf(l, k);
    var r := if i < |l| then l[i := (k, v)] else l + [(k, v)];
    PutLookups(l, k, v, i, r);
    r
  }

  lemma PutLookups<V>(l: seq<(string, V)>, k: string, v: V, i: nat, r: seq<(string, V)>)
    requires i == IndexOf(l, k)
    requires r == if i < |l| then l[i := (k, v)] else l + [(k, v)]
    ensures k in Keys(l) <==> i < |l|
    ensures Lookup(r, k) == Some(v)
    ensures forall j :: j != k ==> Lookup(r, j) == Lookup(l, j)
  {
    if i < |l| {
      assert Keys(l)[i] == k;
    } else {
      assert forall j :: 0 <= j < |l| ==> Keys(l)[j] != k;
    }
    IndexOfIs(r, k, i);
    forall j | j != k ensures Lookup(r, j) == Lookup(l, j) {
      var ij := IndexOf(l, j);
      if ij < |l| {
        IndexOfIs(r, j, ij);
      } else {
        assert forall m :: 0 <= m < |l| ==> Keys(l)[m] != j;
        IndexOfIs(r, j, |r|);
      }
    }
  }

  /** The three facts that IndexOf ensures determine it. */
  lemma {:induction false} IndexOfIs<V>(l: seq<(string, V)>, k: string, i: nat)
    requires i <= |l|
    requires i < |l| ==> l[i].0 == k
    requires forall j :: 0 <= j < i ==> l[j].0 != k
    ensures IndexOf(l, k) == i
  {
    if |l| > 0 && i > 0 {
      IndexOfIs(l[1..], k, i - 1);
    }
  }

  /** Last write wins: a second assignment to the same key erases the first. */
  lemma PutPut<V>(l: seq<(string, V)>, k: string, v1: V, v2: V)
    ensures Put(Put(l, k, v1), k, v2) == Put(l, k, v2)
  {
    var i := IndexOf(l, k);
    if i == |l| {
      IndexOfIs(l + [(k, v1)], k, i);
    }
  }

  /** The position of the first occurrence of `x` in `s`, or `|s|` when
      there is none. */
  function Occurrence(s: seq<string>, x: string): (k: nat)
    ensures k <= |s|
    ensures k < |s| ==> s[k] == x
    ensures forall j :: 0 <= j < k ==> s[j] != x
  {
    if |s| == 0 then 0
    else if s[0] == x then 0
    else 1 + Occurrence(s[1..], x)
  }

  /** Appending to a sequence does not move a first occurrence. */
  lemma {:induction false} OccurrenceSnoc(s: seq<string>, y: string, x: string)
    requires x in s
    ensures Occurrence(s + [y], x) == Occurrence(s, x) < |s|
  {
    if s[0] != x {
      assert (s + [y])[1..] == s[1..] + [y];
      OccurrenceSnoc(s[1..], y, x);
    }
  }

  /** The elements of `s` in order of first occurrence: the keys an array
      ends up with when each element of `s` is assigned in turn. */
  function Dedup(s: seq<string>): (r: seq<string>)
    ensures forall x :: x in r <==> x in s
    ensures forall i, j :: 0 <= i < j < |r| ==> r[i] != r[j]
    ensures forall i, j :: 0 <= i < j < |r| ==> Occurrence(s, r[i]) < Occurrence(s, r[j])
    ensures |r| <= |s|
  {
    if |s| == 0 then []
    else
      var n := |s| - 1;
      assert s == s[..n] + [s[n]];
      var prev := Dedup(s[..n]);
      assert forall i :: 0 <= i < |prev| ==> Occurrence(s, prev[i]) == Occurrence(s[..n], prev[i]) < n by {
        forall i | 0 <= i < |prev| { OccurrenceSnoc(s[..n], s[n], prev[i]); }
      }
      if s[n] in s[..n] then prev
      else
        assert Occurrence(s, s[n]) == n;
        prev + [s[n]]
  }
}
