/** Shared vocabulary: optional values (PHP `null`), and the exceptions thrown
    by the Quicc router, as values.
    Each constructor stands for one `throw new Exception(...)` of the class,
    carrying the pieces its message is built from. */
module Common {

  datatype Option<+T> = None | Some(value: T)

  datatype Error =
    /** `__call` was invoked with a name outside the verb allow-list. */
    | NotAllowedMethod(name: string)
    /** The handler declares more parameters than the route binds. */
    | NotEnoughParams(available: seq<string>, required: seq<string>)
    /** An `int` capture failed `is_numeric`. */
    | NotInteger(param: string)
    /** A `bool` capture is not one of the boolean tokens. */
    | NotBoolean(param: string)
    /** An `email` capture failed the email filter. */
    | NotEmail(param: string)
    /** A handler parameter has no bound value. */
    | MissingParam(param: string)
    /** `validate_input` was asked for a type it has no filter for. */
    | UnknownDataType(dataType: string)
    /** `validate_input` rejected a value and was told to throw. */
    | InvalidValue(value: string, dataType: string)

  /** A computation that either yields a value or throws. */
  datatype Result<+T> = Ok(value: T) | Err(error: Error)

  /** `f` applied to every element. */
  function MapSeq<A, B>(f: A -> B, s: seq<A>): (r: seq<B>)
    ensures |r| == |s|
    ensures forall i :: 0 <= i < |s| ==> r[i] == f(s[i])
  {
    seq(|s|, i requires 0 <= i < |s| => f(s[i]))
  }

  /** The concatenation of `f(x)` over `s`, in order; a filter when every
      `f(x)` is `[x]` or `[]`. */
  function FlatMap<A, B>(f: A -> seq<B>, s: seq<A>): seq<B> {
    if |s| == 0 then [] else f(s[0]) + FlatMap(f, s[1..])
  }

  lemma {:induction false} FlatMapConcat<A, B>(f: A -> seq<B>, a: seq<A>, b: seq<A>)
    ensures FlatMap(f, a + b) == FlatMap(f, a) + FlatMap(f, b)
  {
    if |a| > 0 {
      assert (a + b)[0] == a[0];
      assert (a + b)[1..] == a[1..] + b;
      FlatMapConcat(f, a[1..], b);
      var h := f(a[0]);
      assert h + (FlatMap(f, a[1..]) + FlatMap(f, b)) == (h + FlatMap(f, a[1..])) + FlatMap(f, b);
    } else {
      assert a + b == b;
      assert FlatMap(f, a) == [];
    }
  }

  lemma FlatMapSingle<A, B>(f: A -> seq<B>, x: A)
    ensures FlatMap(f, [x]) == f(x)
  {
    assert [x][1..] == [];
    assert f(x) + [] == f(x);
  }

  /** A FlatMap whose `f` keeps every element is the identity. */
  lemma {:induction false} FlatMapKeepsAll<A>(f: A -> seq<A>, s: seq<A>)
    requires forall i :: 0 <= i < |s| ==> f(s[i]) == [s[i]]
    ensures FlatMap(f, s) == s
  {
    if |s| > 0 {
      FlatMapKeepsAll(f, s[1..]);
      assert [s[0]] + s[1..] == s;
    }
  }

  /** Mapping before or after a FlatMap, when the two agree element-wise. */
  lemma {:induction false} FlatMapOfMap<A, B, C, D>(f: B -> seq<C>, g: A -> B, h: A -> seq<D>, k: D -> C, s: seq<A>)
    requires forall x :: f(g(x)) == MapSeq(k, h(x))
    ensures FlatMap(f, MapSeq(g, s)) == MapSeq(k, FlatMap(h, s))
  {
    if |s| > 0 {
      var gs := MapSeq(g, s);
      assert gs[1..] == MapSeq(g, s[1..]);
      FlatMapOfMap(f, g, h, k, s[1..]);
      MapSeqConcat(k, h(s[0]), FlatMap(h, s[1..]));
    } else {
      assert MapSeq(g, s) == [];
    }
  }

  lemma MapSeqConcat<A, B>(k: A -> B, a: seq<A>, b: seq<A>)
    ensures MapSeq(k, a + b) == MapSeq(k, a) + MapSeq(k, b)
  {
  }

  lemma MapSeqSnoc<A, B>(k: A -> B, a: seq<A>, x: A)
    ensures MapSeq(k, a + [x]) == MapSeq(k, a) + [k(x)]
  {
  }

  lemma FlatMapSnoc<A, B>(f: A -> seq<B>, a: seq<A>, x: A)
    ensures FlatMap(f, a + [x]) == FlatMap(f, a) + f(x)
  {
    FlatMapConcat(f, a, [x]);
    FlatMapSingle(f, x);
  }

  /** A FlatMap of a FlatMap, fused into one. */
  lemma {:induction false} FlatMapOfFlatMap<A, B, C>(f: B -> seq<C>, g: A -> seq<B>, h: A -> seq<C>, s: seq<A>)
    requires forall x :: FlatMap(f, g(x)) == h(x)
    ensures FlatMap(f, FlatMap(g, s)) == FlatMap(h, s)
  {
    if |s| > 0 {
      FlatMapOfFlatMap(f, g, h, s[1..]);
      FlatMapConcat(f, g(s[0]), FlatMap(g, s[1..]));
    }
  }

  /** The index of the first element satisfying `p`, or `|s|` if none does. */
  function FirstIndex<A>(p: A -> bool, s: seq<A>): (k: nat)
    ensures k <= |s|
    ensures k < |s| ==> p(s[k])
    ensures forall j :: 0 <= j < k ==> !p(s[j])
  {
    if |s| == 0 then 0
    else if p(s[0]) then 0
    else 1 + FirstIndex(p, s[1..])
  }

  /** A search that succeeds inside a prefix stops at the same place in the
      whole sequence. */
  lemma {:induction false} FirstIndexPrefix<A>(p: A -> bool, s: seq<A>, n: nat)
    requires n <= |s| && FirstIndex(p, s[..n]) < n
    ensures FirstIndex(p, s) == FirstIndex(p, s[..n])
  {
    assert s[..n][0] == s[0];
    if !p(s[0]) {
      assert s[..n][1..] == s[1..][..n - 1];
      FirstIndexPrefix(p, s[1..], n - 1);
    }
  }

  /** Every element of a FlatMap comes from the image of some element. */
  lemma {:induction false} FlatMapMember<A, B>(f: A -> seq<B>, s: seq<A>, x: B)
    requires x in FlatMap(f, s)
    ensures exists i :: 0 <= i < |s| && x in f(s[i])
  {
    assert |s| > 0;
    if x !in f(s[0]) {
      FlatMapMember(f, s[1..], x);
      var i :| 0 <= i < |s[1..]| && x in f(s[1..][i]);
      assert s[1..][i] == s[i + 1];
    }
  }

  lemma TakeAll<A>(s: seq<A>)
    ensures s[..|s|] == s
  {
  }
}
