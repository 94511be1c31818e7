/** The routing pipeline of the Quicc class as functions: segment counting,
    template compilation, matching against the route table, parameter
    binding and coercion, argument ordering and dispatch. The methods of
    the class (module Router) are proved to compute these. */
module Routes {
  import opened Common
  import opened Text
  import opened Assoc
  import opened Coercion

  /** A route callback: an identity standing for the PHP callable, and the
      names of its declared parameters, in order (what reflection reports). */
  datatype Handler = Handler(id: nat, paramNames: seq<string>)

  /** One `/`-separated piece of a compiled template: literal text that the
      path segment must equal, or a named capture that accepts any segment. */
  datatype Piece = Literal(text: string) | Capture(name: string)

  /** A compiled route, as `parse_route` builds it. `pieces` stands for the
      regular expression it would emit. */
  datatype Route = Route(
    name: string,
    pieces: seq<Piece>,
    params: seq<string>,
    callback: Handler,
    verb: string,
    pieceCount: nat)

  /** The route table: template to compiled route, in registration order. */
  type Table = seq<(string, Route)>

  /** The result of handling one request. */
  datatype Outcome =
    | NotFound
    | MethodNotAllowed
    | Thrown(error: Error)
    | Call(callback: Handler, args: seq<Value>)

  // ---------------------------------------------------------------------
  // Segment counting (count_url_pieces)

  /** `[p]` when the piece is not blank after trimming, `[]` otherwise. */
  function KeepNonBlank(p: string): seq<string> {
    if Trim(p) != "" then [p] else []
  }

  /** The pieces that are not blank after trimming, in order. */
  function NonBlank(ps: seq<string>): seq<string> {
    FlatMap(KeepNonBlank, ps)
  }

  /** The segments of a path: its `/`-separated pieces that are not blank. */
  function PathSegments(path: string): seq<string> {
    NonBlank(Split(path, '/'))
  }

  /** The value `count_url_pieces` returns. */
  function CountPieces(path: string): nat {
    |PathSegments(path)|
  }

  /** The empty path has no segments. */
  lemma CountPiecesEmpty()
    ensures CountPieces("") == 0
  {
    assert Trim("") == "";
    FlatMapSingle(KeepNonBlank, "");
  }

  /** Leading and trailing slashes do not change the count. */
  lemma CountPiecesOuterSlashes(s: string)
    ensures CountPieces("/" + s) == CountPieces(s)
    ensures CountPieces(s + "/") == CountPieces(s)
  {
    assert Trim("") == "";
    FlatMapSingle(KeepNonBlank, "");
    assert "/" + s == "" + ['/'] + s;
    SplitConcat("", s, '/');
    FlatMapConcat(KeepNonBlank, [""], Split(s, '/'));
    assert s + "/" == s + ['/'] + "";
    SplitConcat(s, "", '/');
    FlatMapConcat(KeepNonBlank, Split(s, '/'), [""]);
  }

  /** A doubled slash counts as one. */
  lemma CountPiecesDoubledSlash(a: string, b: string)
    ensures CountPieces(a + "//" + b) == CountPieces(a + "/" + b)
  {
    assert Trim("") == "";
    FlatMapSingle(KeepNonBlank, "");
    assert a + "//" + b == a + ['/'] + ("" + ['/'] + b);
    assert a + "/" + b == a + ['/'] + b;
    SplitConcat(a, "" + ['/'] + b, '/');
    SplitConcat("", b, '/');
    SplitConcat(a, b, '/');
    var sa, sb := Split(a, '/'), Split(b, '/');
    FlatMapConcat(KeepNonBlank, sa, [""] + sb);
    FlatMapConcat(KeepNonBlank, [""], sb);
    FlatMapConcat(KeepNonBlank, sa, sb);
  }

  /** One round of the counting loop. */
  lemma NonBlankStep(ps: seq<string>, i: nat)
    requires i < |ps|
    ensures |NonBlank(ps[..i + 1])| == |NonBlank(ps[..i])| + (if Trim(ps[i]) != "" then 1 else 0)
  {
    assert ps[..i + 1] == ps[..i] + [ps[i]];
    FlatMapConcat(KeepNonBlank, ps[..i], [ps[i]]);
    FlatMapSingle(KeepNonBlank, ps[i]);
  }

  /** Segments joined by slashes are counted, and read back, one by one. */
  lemma SegmentsOfJoin(segs: seq<string>)
    requires forall i :: 0 <= i < |segs| ==> '/' !in segs[i] && Trim(segs[i]) != ""
    ensures PathSegments(Join(segs, '/')) == segs
    ensures CountPieces(Join(segs, '/')) == |segs|
  {
    if |segs| == 0 {
      assert Join(segs, '/') == "";
      assert Split("", '/') == [""];
      assert Trim("") == "";
      FlatMapSingle(KeepNonBlank, "");
    } else {
      var path := Join(segs, '/');
      SplitJoin(segs, '/');
      assert Split(path, '/') == segs;
      forall i | 0 <= i < |segs| ensures KeepNonBlank(segs[i]) == [segs[i]] {
      }
      FlatMapKeepsAll(KeepNonBlank, segs);
    }
  }

  // ---------------------------------------------------------------------
  // Route compilation (parse_route)

  /** A trimmed piece written `{...}`: it starts with `{` and ends with `}`. */
  predicate IsCapturePiece(p: string) {
    |p| > 0 && p[0] == '{' && p[|p| - 1] == '}'
  }

  /** The text between the braces: the raw parameter spec (`id:int`). */
  function Inner(p: string): string
    requires IsCapturePiece(p)
  {
    p[1..|p| - 1]
  }

  /** The capture name of a spec: the text before its first `:`. */
  function NameOf(spec: string): (name: string)
    ensures name <= spec && ':' !in name
    ensures |name| < |spec| ==> spec[|name|] == ':'
  {
    SplitHead(spec, ':');
    Split(spec, ':')[0]
  }

  /** One template piece, trimmed, as a capture or a literal. */
  function CompilePiece(raw: string): Piece {
    var p := Trim(raw);
    if IsCapturePiece(p) then Capture(NameOf(Inner(p))) else Literal(p)
  }

  function CompilePieces(raws: seq<string>): seq<Piece> {
    MapSeq(CompilePiece, raws)
  }

  /** The spec a template piece contributes: its inner text if it is a
      capture, nothing otherwise. */
  function SpecOf(raw: string): seq<string> {
    var p := Trim(raw);
    if IsCapturePiece(p) then [Inner(p)] else []
  }

  /** The raw specs of the capture pieces, left to right. */
  function ParamSpecs(raws: seq<string>): seq<string> {
    FlatMap(SpecOf, raws)
  }

  /** The route `parse_route(template, verb, callback)` returns. */
  function Compile(template: string, verb: string, callback: Handler): Route {
    var raws := Split(template, '/');
    Route(template, CompilePieces(raws), ParamSpecs(raws), callback, Upper(verb), CountPieces(template))
  }

  /** One round of the compilation loop. */
  lemma CompileStep(ps: seq<string>, i: nat)
    requires i < |ps|
    ensures CompilePieces(ps[..i + 1]) == CompilePieces(ps[..i]) + [CompilePiece(ps[i])]
    ensures ParamSpecs(ps[..i + 1]) == ParamSpecs(ps[..i]) + SpecOf(ps[i])
  {
    assert ps[..i + 1] == ps[..i] + [ps[i]];
    MapSeqSnoc(CompilePiece, ps[..i], ps[i]);
    FlatMapSnoc(SpecOf, ps[..i], ps[i]);
  }

  function CaptureNameOf(p: Piece): seq<string> {
    if p.Capture? then [p.name] else []
  }

  /** The names of the capture pieces, left to right. */
  function CaptureNames(ps: seq<Piece>): seq<string> {
    FlatMap(CaptureNameOf, ps)
  }

  function Names(specs: seq<string>): seq<string> {
    MapSeq(NameOf, specs)
  }

  /** A piece stands for a path segment unless it is an empty literal, the
      trace of a leading, trailing or doubled slash. */
  predicate IsSegment(p: Piece) {
    p != Literal("")
  }

  function KeepSegment(p: Piece): seq<Piece> {
    if IsSegment(p) then [p] else []
  }

  function Segments(ps: seq<Piece>): seq<Piece> {
    FlatMap(KeepSegment, ps)
  }

  /** The shape every compiled route has: one segment piece per counted
      segment, and one capture per parameter spec, named by it, in order. */
  predicate WellFormed(r: Route) {
    |Segments(r.pieces)| == r.pieceCount && CaptureNames(Segments(r.pieces)) == Names(r.params)
  }

  /** The segment pieces of a compiled template are the compiled non-blank
      template pieces. */
  lemma SegmentsOfCompiled(raws: seq<string>)
    ensures Segments(CompilePieces(raws)) == CompilePieces(NonBlank(raws))
  {
    forall x ensures KeepSegment(CompilePiece(x)) == MapSeq(CompilePiece, KeepNonBlank(x)) {
      if Trim(x) == "" {
        assert !IsCapturePiece(Trim(x));
      }
    }
    FlatMapOfMap(KeepSegment, CompilePiece, KeepNonBlank, CompilePiece, raws);
  }

  /** The capture pieces of a compiled template are named after its
      parameter specs, in order. */
  lemma CapturesOfCompiled(raws: seq<string>)
    ensures CaptureNames(CompilePieces(raws)) == Names(ParamSpecs(raws))
  {
    FlatMapOfMap(CaptureNameOf, CompilePiece, SpecOf, NameOf, raws);
  }

  /** Dropping the empty literals keeps every capture. */
  lemma CaptureNamesOfSegments(ps: seq<Piece>)
    ensures CaptureNames(Segments(ps)) == CaptureNames(ps)
  {
    forall p ensures FlatMap(CaptureNameOf, KeepSegment(p)) == CaptureNameOf(p) {
      FlatMapSingle(CaptureNameOf, p);
    }
    FlatMapOfFlatMap(CaptureNameOf, KeepSegment, CaptureNameOf, ps);
  }

  /** What `parse_route` promises: the route keeps the template as its name
      and the verb upper-cased, counts the template's segments, has one
      segment piece per counted segment (literals trimmed) and one capture
      per parameter spec, named by the spec's text before its first `:`. */
  lemma CompileSpec(template: string, verb: string, callback: Handler)
    ensures var r := Compile(template, verb, callback);
      && r.name == template && r.verb == Upper(verb) && r.callback == callback
      && r.pieceCount == CountPieces(template)
      && Segments(r.pieces) == CompilePieces(PathSegments(template))
      && CaptureNames(r.pieces) == Names(r.params)
      && WellFormed(r)
  {
    var raws := Split(template, '/');
    SegmentsOfCompiled(raws);
    CapturesOfCompiled(raws);
    CaptureNamesOfSegments(CompilePieces(raws));
  }

  // ---------------------------------------------------------------------
  // Matching (detect_route)

  predicate PieceAccepts(p: Piece, seg: string) {
    p.Capture? || p.text == seg
  }

  /** The pattern matches the segments starting at the first one. */
  predicate MatchesAt(pat: seq<Piece>, segs: seq<string>) {
    |pat| <= |segs| && forall i :: 0 <= i < |pat| ==> PieceAccepts(pat[i], segs[i])
  }

  /** `preg_match(pattern, path) !== 0` at segment level: the pattern matches
      a run of consecutive segments somewhere in the path. */
  predicate Matches(pat: seq<Piece>, segs: seq<string>)
    decreases |segs|
  {
    MatchesAt(pat, segs) || (|segs| > 0 && Matches(pat, segs[1..]))
  }

  /** The test `detect_route` applies to each route. */
  predicate Qualifies(r: Route, path: string) {
    Matches(Segments(r.pieces), PathSegments(path)) && r.pieceCount == CountPieces(path)
  }

  /** Matching is unanchored: it finds the pattern at any offset. */
  lemma {:induction false} MatchesWindow(pat: seq<Piece>, segs: seq<string>)
    ensures Matches(pat, segs) <==>
      exists k :: 0 <= k <= |segs| - |pat| && MatchesAt(pat, segs[k..])
  {
    if Matches(pat, segs) {
      if !MatchesAt(pat, segs) {
        MatchesWindow(pat, segs[1..]);
        var k :| 0 <= k <= |segs| - 1 - |pat| && MatchesAt(pat, segs[1..][k..]);
        assert segs[1..][k..] == segs[k + 1..];
      } else {
        assert segs[0..] == segs;
      }
    }
    if exists k :: 0 <= k <= |segs| - |pat| && MatchesAt(pat, segs[k..]) {
      var k :| 0 <= k <= |segs| - |pat| && MatchesAt(pat, segs[k..]);
      if k == 0 {
        assert segs[0..] == segs;
      } else {
        assert segs[1..][k - 1..] == segs[k..];
        MatchesWindow(pat, segs[1..]);
      }
    }
  }

  /** Without the piece-count test a route would also accept longer paths:
      a match survives any segment added in front. */
  lemma MatchesPrefixed(pat: seq<Piece>, seg: string, segs: seq<string>)
    requires Matches(pat, segs)
    ensures Matches(pat, [seg] + segs)
  {
    assert ([seg] + segs)[1..] == segs;
  }

  /** With the piece-count test, a compiled route qualifies exactly when its
      segment pieces line up one to one with the path's segments. */
  lemma QualifiesAnchored(r: Route, path: string)
    requires WellFormed(r)
    ensures Qualifies(r, path) <==>
      |Segments(r.pieces)| == |PathSegments(path)| && MatchesAt(Segments(r.pieces), PathSegments(path))
  {
    var pat, segs := Segments(r.pieces), PathSegments(path);
    MatchesWindow(pat, segs);
    if Qualifies(r, path) {
      var k :| 0 <= k <= |segs| - |pat| && MatchesAt(pat, segs[k..]);
      assert k == 0;
      assert segs[0..] == segs;
    }
  }

  /** A path whose segment count differs from the route's never matches it. */
  lemma CountMismatch(r: Route, path: string)
    requires WellFormed(r)
    requires |Segments(r.pieces)| != CountPieces(path)
    ensures !Qualifies(r, path)
  {
  }

  /** The position `detect_route` stops at: the first qualifying route, or
      the end of the table. */
  function MatchIndex(t: Table, path: string): (k: nat)
    ensures k <= |t|
    ensures k < |t| ==> Qualifies(t[k].1, path)
    ensures forall j :: 0 <= j < k ==> !Qualifies(t[j].1, path)
  {
    FirstIndex((e: (string, Route)) => Qualifies(e.1, path), t)
  }

  /** The route `detect_route` returns, `None` for PHP `null`. */
  function FirstMatch(t: Table, path: string): Option<Route> {
    var k := MatchIndex(t, path);
    if k < |t| then Some(t[k].1) else None
  }

  /** The first qualifying route in table order wins; there is none exactly
      when no route qualifies. */
  lemma FirstMatchSpec(t: Table, path: string)
    ensures FirstMatch(t, path).None? <==> forall i :: 0 <= i < |t| ==> !Qualifies(t[i].1, path)
    ensures forall i :: 0 <= i < |t| && Qualifies(t[i].1, path) ==>
      MatchIndex(t, path) <= i && FirstMatch(t, path) == Some(t[MatchIndex(t, path)].1)
  {
  }

  // ---------------------------------------------------------------------
  // Route table (__call)

  /** The names `__call` accepts, as listed in the source ("head" twice). */
  const AllowedCalls: seq<string> := ["batch", "delete", "get", "head", "post", "head", "put"]

  /** Every route in the table is compiled and no template occurs twice. */
  predicate TableValid(t: Table) {
    UniqueKeys(t) && forall i :: 0 <= i < |t| ==> WellFormed(t[i].1)
  }

  /** Registering a route keeps the table valid. */
  lemma RegisterKeepsValid(t: Table, template: string, verb: string, callback: Handler)
    requires TableValid(t)
    ensures TableValid(Put(t, template, Compile(template, verb, callback)))
  {
    CompileSpec(template, verb, callback);
    var t' := Put(t, template, Compile(template, verb, callback));
    forall i | 0 <= i < |t'| ensures WellFormed(t'[i].1) {
      if i < |t| && t[i].0 != template {
      } else {
        assert t'[i].0 == template by {
          if i < |t| { assert Keys(t')[i] == Keys(t)[i]; }
          else { assert Keys(t')[i] == template; }
        }
        LookupAt(t', i);
      }
    }
  }

  /** In a table without repeated keys, an entry is what looking up its key finds. */
  lemma LookupAt<V>(l: seq<(string, V)>, i: nat)
    requires UniqueKeys(l) && i < |l|
    ensures Lookup(l, l[i].0) == Some(l[i].1)
  {
    IndexOfIs(l, l[i].0, i);
  }

  /** Re-registering a template: the second route replaces the first. */
  lemma LastWriteWins(t: Table, template: string, r1: Route, r2: Route, path: string)
    ensures Put(Put(t, template, r1), template, r2) == Put(t, template, r2)
    ensures FirstMatch(Put(Put(t, template, r1), template, r2), path) == FirstMatch(Put(t, template, r2), path)
  {
    PutPut(t, template, r1, r2);
  }

  /** A route registered under a new template goes last, so it never takes
      priority over a route already in the table that matches. */
  lemma RegistrationOrderPriority(t: Table, template: string, r: Route, path: string)
    requires template !in Keys(t)
    requires FirstMatch(t, path).Some?
    ensures FirstMatch(Put(t, template, r), path) == FirstMatch(t, path)
  {
    var t' := Put(t, template, r);
    assert Keys(t') == Keys(t) + [template];
    var k := MatchIndex(t, path);
    assert t'[..|t|] == t by {
      forall i | 0 <= i < |t| ensures t'[i] == t[i] {
        assert Keys(t)[i] != template;
      }
    }
    MatchIndexPrefix(t', |t|, path);
  }

  /** The search stops inside a prefix when the prefix holds a match. */
  lemma MatchIndexPrefix(t: Table, n: nat, path: string)
    requires n <= |t| && MatchIndex(t[..n], path) < n
    ensures MatchIndex(t, path) == MatchIndex(t[..n], path)
  {
    FirstIndexPrefix((e: (string, Route)) => Qualifies(e.1, path), t, n);
  }

  // ---------------------------------------------------------------------
  // Parameter binding (detect_params)

  /** The segment a capture takes: the one aligned with the first capture
      piece of that name (`$matches[name][0]`). */
  function CaptureValue(pat: seq<Piece>, segs: seq<string>, name: string): (v: string)
    requires |pat| == |segs| && name in CaptureNames(pat)
    ensures exists i :: 0 <= i < |pat| && FirstCaptureAt(pat, name, i) && v == segs[i]
  {
    FlatMapMember(CaptureNameOf, pat, name);
    var i := FirstIndex((p: Piece) => p == Capture(name), pat);
    segs[i]
  }

  /** Piece `i` is the leftmost capture named `name`. */
  predicate FirstCaptureAt(pat: seq<Piece>, name: string, i: nat)
    requires i < |pat|
  {
    pat[i] == Capture(name) && forall j :: 0 <= j < i ==> pat[j] != Capture(name)
  }

  /** Every parameter spec of a compiled route names one of its captures. */
  lemma SpecsNameCaptures(r: Route)
    requires WellFormed(r)
    ensures forall s :: s in r.params ==> NameOf(s) in CaptureNames(Segments(r.pieces))
  {
    forall s | s in r.params ensures NameOf(s) in CaptureNames(Segments(r.pieces)) {
      var i :| 0 <= i < |r.params| && r.params[i] == s;
      assert Names(r.params)[i] == NameOf(s);
    }
  }

  /** The first loop of `detect_params`: `$params[spec] = $matches[name][0]`
      for each spec in turn. One entry per distinct spec, in order of first
      occurrence, holding the segment its capture took. */
  function RawParams(specs: seq<string>, pat: seq<Piece>, segs: seq<string>): (r: seq<(string, string)>)
    requires |pat| == |segs|
    requires forall s :: s in specs ==> NameOf(s) in CaptureNames(pat)
    ensures UniqueKeys(r)
    ensures Keys(r) == Dedup(specs)
    ensures forall s :: s in specs ==> Lookup(r, s) == Some(CaptureValue(pat, segs, NameOf(s)))
  {
    if |specs| == 0 then []
    else
      var n := |specs| - 1;
      assert specs == specs[..n] + [specs[n]];
      Put(RawParams(specs[..n], pat, segs), specs[n], CaptureValue(pat, segs, NameOf(specs[n])))
  }

  /** One round of the collecting loop. */
  lemma RawParamsStep(specs: seq<string>, pat: seq<Piece>, segs: seq<string>, i: nat)
    requires |pat| == |segs| && i < |specs|
    requires forall s :: s in specs ==> NameOf(s) in CaptureNames(pat)
    ensures RawParams(specs[..i + 1], pat, segs) ==
      Put(RawParams(specs[..i], pat, segs), specs[i], CaptureValue(pat, segs, NameOf(specs[i])))
  {
    assert specs[..i + 1][..i] == specs[..i];
  }

  /** Entry `e` of the raw parameters is bound under key `k`. */
  predicate BindsKey(e: (string, string), k: string, coerce: (string, string) -> Coerced) {
    var c := coerce(e.0, e.1);
    c.Bound? && c.key == k
  }

  predicate FailsAt(raw: seq<(string, string)>, i: nat, coerce: (string, string) -> Coerced)
    requires i < |raw|
  {
    coerce(raw[i].0, raw[i].1).Failed?
  }

  /** Entry `i` is the first entry whose coercion fails. */
  predicate FirstFailure(raw: seq<(string, string)>, i: nat, coerce: (string, string) -> Coerced)
    requires i < |raw|
  {
    FailsAt(raw, i, coerce) && forall j :: 0 <= j < i ==> !FailsAt(raw, j, coerce)
  }

  /** Entry `i` is the last entry bound under key `k`. */
  predicate LastBinding(raw: seq<(string, string)>, i: nat, k: string, coerce: (string, string) -> Coerced)
    requires i < |raw|
  {
    BindsKey(raw[i], k, coerce) && forall j :: i < j < |raw| ==> !BindsKey(raw[j], k, coerce)
  }

  /** The second loop of `detect_params`: each raw entry coerced in order
      into `$processed_params` by `coerce` (the per-value step, `CoerceOne`
      with the email filter); the first failure throws. */
  function CoerceAll(raw: seq<(string, string)>, coerce: (string, string) -> Coerced): (r: Result<seq<(string, Value)>>)
    ensures r.Ok? ==> UniqueKeys(r.value)
  {
    if |raw| == 0 then Ok([])
    else
      var n := |raw| - 1;
      match CoerceAll(raw[..n], coerce)
      case Err(e) => Err(e)
      case Ok(m) =>
        match coerce(raw[n].0, raw[n].1)
        case Bound(k, v) => Ok(Put(m, k, v))
        case Dropped => Ok(m)
        case Failed(e) => Err(e)
  }

  /** Coercion fails exactly when some entry fails, and then with the error
      of the first failing entry. */
  lemma {:induction false} CoerceAllFailure(raw: seq<(string, string)>, coerce: (string, string) -> Coerced)
    ensures CoerceAll(raw, coerce).Err? <==> exists i :: 0 <= i < |raw| && FailsAt(raw, i, coerce)
    ensures CoerceAll(raw, coerce).Err? ==>
      exists i :: 0 <= i < |raw| && FirstFailure(raw, i, coerce) &&
        coerce(raw[i].0, raw[i].1).error == CoerceAll(raw, coerce).error
  {
    if |raw| > 0 {
      var n := |raw| - 1;
      var pre := raw[..n];
      CoerceAllFailure(pre, coerce);
      assert forall i :: 0 <= i < n ==> pre[i] == raw[i];
      var c := coerce(raw[n].0, raw[n].1);
      if CoerceAll(pre, coerce).Err? {
        var i :| 0 <= i < |pre| && FirstFailure(pre, i, coerce) &&
          coerce(pre[i].0, pre[i].1).error == CoerceAll(pre, coerce).error;
        forall j | 0 <= j < i ensures !FailsAt(raw, j, coerce) {
          assert !FailsAt(pre, j, coerce);
        }
        assert FailsAt(pre, i, coerce);
        assert FirstFailure(raw, i, coerce);
      } else if c.Failed? {
        forall j | 0 <= j < n ensures !FailsAt(raw, j, coerce) {
          assert !FailsAt(pre, j, coerce);
        }
        assert FirstFailure(raw, n, coerce);
      } else {
        forall j | 0 <= j < n ensures !FailsAt(raw, j, coerce) {
          assert !FailsAt(pre, j, coerce);
        }
      }
    }
  }

  /** When coercion succeeds, a key holds the value of the last entry bound
      under it (later entries overwrite earlier ones), and a key no entry is
      bound under is absent. */
  lemma {:induction false} CoerceAllBindings(raw: seq<(string, string)>, coerce: (string, string) -> Coerced, k: string)
    requires CoerceAll(raw, coerce).Ok?
    ensures Lookup(CoerceAll(raw, coerce).value, k).None? <==>
      forall i :: 0 <= i < |raw| ==> !BindsKey(raw[i], k, coerce)
    ensures forall i :: 0 <= i < |raw| && LastBinding(raw, i, k, coerce) ==>
      Lookup(CoerceAll(raw, coerce).value, k) == Some(coerce(raw[i].0, raw[i].1).value)
  {
    if |raw| > 0 {
      var n := |raw| - 1;
      var pre := raw[..n];
      assert forall i :: 0 <= i < n ==> pre[i] == raw[i];
      var c := coerce(raw[n].0, raw[n].1);
      var out := CoerceAll(raw, coerce).value;
      assert CoerceAll(pre, coerce).Ok?;
      var m := CoerceAll(pre, coerce).value;
      CoerceAllBindings(pre, coerce, k);
      if BindsKey(raw[n], k, coerce) {
        assert out == Put(m, k, c.value);
        forall i | 0 <= i < |raw| && LastBinding(raw, i, k, coerce)
          ensures Lookup(out, k) == Some(coerce(raw[i].0, raw[i].1).value)
        {
          assert i == n;
        }
      } else {
        assert Lookup(out, k) == Lookup(m, k);
        forall i | 0 <= i < |raw| && LastBinding(raw, i, k, coerce)
          ensures Lookup(out, k) == Some(coerce(raw[i].0, raw[i].1).value)
        {
          assert i < n;
          assert LastBinding(pre, i, k, coerce);
        }
        assert (forall i :: 0 <= i < |raw| ==> !BindsKey(raw[i], k, coerce)) <==>
          (forall i :: 0 <= i < |pre| ==> !BindsKey(pre[i], k, coerce));
      }
    }
  }

  /** One round of the coercion loop, from a successful prefix. */
  lemma CoerceAllStep(raw: seq<(string, string)>, coerce: (string, string) -> Coerced, i: nat,
                      m: seq<(string, Value)>)
    requires i < |raw| && CoerceAll(raw[..i], coerce) == Ok(m)
    ensures CoerceAll(raw[..i + 1], coerce) ==
      match coerce(raw[i].0, raw[i].1)
      case Bound(k, v) => Ok(Put(m, k, v))
      case Dropped => Ok(m)
      case Failed(e) => Err(e)
  {
    assert raw[..i + 1][..i] == raw[..i];
  }

  /** Once an entry fails, coercing further entries keeps that error. */
  lemma {:induction false} CoerceAllPrefixErr(raw: seq<(string, string)>, coerce: (string, string) -> Coerced, i: nat)
    requires i <= |raw| && CoerceAll(raw[..i], coerce).Err?
    ensures CoerceAll(raw, coerce) == CoerceAll(raw[..i], coerce)
  {
    if i < |raw| {
      var n := |raw| - 1;
      assert raw[..n][..i] == raw[..i];
      CoerceAllPrefixErr(raw[..n], coerce, i);
    } else {
      assert raw[..i] == raw;
    }
  }

  /** The coercion step of `detect_params` with a given email filter. */
  function Coercer(isEmail: string -> bool): (string, string) -> Coerced {
    (spec: string, value: string) => CoerceOne(spec, value, isEmail)
  }

  /** The binding step of `detect_params` for a route whose segment pieces
      line up with the path's segments: the arity check first, then the
      coercion. */
  function BindParams(r: Route, segs: seq<string>, isEmail: string -> bool): Result<seq<(string, Value)>>
    requires WellFormed(r) && |Segments(r.pieces)| == |segs|
  {
    SpecsNameCaptures(r);
    var raw := RawParams(r.params, Segments(r.pieces), segs);
    if |r.callback.paramNames| > |raw| then Err(NotEnoughParams(r.params, r.callback.paramNames))
    else CoerceAll(raw, Coercer(isEmail))
  }

  /** The arity check counts the distinct specs, and it fails before any
      value is coerced: the outcome does not depend on the captured text or
      on the email filter. */
  lemma ArityCheck(r: Route, segs: seq<string>, isEmail: string -> bool)
    requires WellFormed(r) && |Segments(r.pieces)| == |segs|
    ensures |r.callback.paramNames| > |Dedup(r.params)| <==>
      BindParams(r, segs, isEmail) == Err(NotEnoughParams(r.params, r.callback.paramNames))
  {
    SpecsNameCaptures(r);
    var raw := RawParams(r.params, Segments(r.pieces), segs);
    var coerce := Coercer(isEmail);
    if |r.callback.paramNames| <= |Dedup(r.params)| && CoerceAll(raw, coerce).Err? {
      CoerceAllFailure(raw, coerce);
      var i :| 0 <= i < |raw| && FirstFailure(raw, i, coerce) &&
        coerce(raw[i].0, raw[i].1).error == CoerceAll(raw, coerce).error;
      CoerceNeverNotEnough(raw[i].0, raw[i].1, isEmail);
    }
  }

  /** Coercing one value never throws the arity error. */
  lemma CoerceNeverNotEnough(spec: string, value: string, isEmail: string -> bool)
    ensures !CoerceOne(spec, value, isEmail).Failed? || !CoerceOne(spec, value, isEmail).error.NotEnoughParams?
  {
  }

  // ---------------------------------------------------------------------
  // Argument ordering and dispatch (listen)

  /** The arguments in the handler's declared order; the first name with no
      bound value throws. */
  function OrderArgs(names: seq<string>, m: seq<(string, Value)>): Result<seq<Value>> {
    if |names| == 0 then Ok([])
    else
      match Lookup(m, names[0])
      case None => Err(MissingParam(names[0]))
      case Some(v) =>
        match OrderArgs(names[1..], m)
        case Err(e) => Err(e)
        case Ok(rest) => Ok([v] + rest)
  }

  /** Ordering succeeds exactly when every handler name is bound; the i-th
      argument is then the value bound to the i-th name; otherwise the error
      names the first unbound one. */
  lemma {:induction false} OrderArgsSpec(names: seq<string>, m: seq<(string, Value)>)
    ensures OrderArgs(names, m).Ok? <==> forall i :: 0 <= i < |names| ==> names[i] in Keys(m)
    ensures OrderArgs(names, m).Ok? ==>
      var args := OrderArgs(names, m).value;
      |args| == |names| && forall i :: 0 <= i < |names| ==> Lookup(m, names[i]) == Some(args[i])
    ensures OrderArgs(names, m).Err? ==>
      exists i :: 0 <= i < |names| && names[i] !in Keys(m) && OrderArgs(names, m).error == MissingParam(names[i])
        && forall j :: 0 <= j < i ==> names[j] in Keys(m)
  {
    if |names| > 0 {
      OrderArgsSpec(names[1..], m);
      assert forall i :: 1 <= i < |names| ==> names[1..][i - 1] == names[i];
      if OrderArgs(names, m).Err? && names[0] in Keys(m) {
        var i :| 0 <= i < |names| - 1 && names[1..][i] !in Keys(m)
          && OrderArgs(names[1..], m).error == MissingParam(names[1..][i])
          && forall j :: 0 <= j < i ==> names[1..][j] in Keys(m);
        assert forall j :: 0 <= j < i + 1 ==> names[j] in Keys(m) by {
          forall j | 0 <= j < i + 1 ensures names[j] in Keys(m) {
            if j > 0 { assert names[j] == names[1..][j - 1]; }
          }
        }
      }
    }
  }

  /** The ordering loop ran to the end: every name was bound. */
  lemma OrderArgsComplete(names: seq<string>, m: seq<(string, Value)>, ordered: seq<Value>)
    requires |ordered| == |names|
    requires forall j :: 0 <= j < |names| ==> Lookup(m, names[j]) == Some(ordered[j])
    ensures OrderArgs(names, m) == Ok(ordered)
  {
    OrderArgsSpec(names, m);
    assert OrderArgs(names, m).value == ordered;
  }

  /** The ordering loop stopped at the first unbound name. */
  lemma OrderArgsStops(names: seq<string>, m: seq<(string, Value)>, i: nat)
    requires i < |names| && Lookup(m, names[i]).None?
    requires forall j :: 0 <= j < i ==> Lookup(m, names[j]).Some?
    ensures OrderArgs(names, m) == Err(MissingParam(names[i]))
  {
    OrderArgsSpec(names, m);
  }

  /** `validate_method`: the request method, upper-cased, must equal the
      route's (already upper-cased) method. */
  predicate MethodAllowed(requestMethod: string, verb: string) {
    Upper(requestMethod) == verb
  }

  /** The search stops at a qualifying route with none before it. */
  lemma FirstMatchAt(t: Table, path: string, i: nat)
    requires i <= |t|
    requires i < |t| ==> Qualifies(t[i].1, path)
    requires forall j :: 0 <= j < i ==> !Qualifies(t[j].1, path)
    ensures FirstMatch(t, path) == if i < |t| then Some(t[i].1) else None
  {
    assert MatchIndex(t, path) == i;
  }

  /** The route returned by the search is compiled and qualifies. */
  lemma FirstMatchFacts(t: Table, path: string)
    requires TableValid(t) && FirstMatch(t, path).Some?
    ensures WellFormed(FirstMatch(t, path).value) && Qualifies(FirstMatch(t, path).value, path)
    ensures |Segments(FirstMatch(t, path).value.pieces)| == |PathSegments(path)|
  {
  }

  /** What `listen` does with one request, up to the call it makes. */
  function Dispatch(t: Table, requestMethod: string, path: string, isEmail: string -> bool): Outcome
    requires TableValid(t)
  {
    match FirstMatch(t, path)
    case None => NotFound
    case Some(r) =>
      if !MethodAllowed(requestMethod, r.verb) then MethodNotAllowed
      else
        FirstMatchFacts(t, path);
        match BindParams(r, PathSegments(path), isEmail)
        case Err(e) => Thrown(e)
        case Ok(m) =>
          match OrderArgs(r.callback.paramNames, m)
          case Err(e) => Thrown(e)
          case Ok(args) => Call(r.callback, args)
  }

  /** `$params` after `listen`: the bound parameters when binding was
      reached and succeeded, the earlier value otherwise. */
  function ParamsAfter(t: Table, requestMethod: string, path: string, isEmail: string -> bool,
                       prev: Option<seq<(string, Value)>>): Option<seq<(string, Value)>>
    requires TableValid(t)
  {
    match FirstMatch(t, path)
    case None => prev
    case Some(r) =>
      if !MethodAllowed(requestMethod, r.verb) then prev
      else
        FirstMatchFacts(t, path);
        match BindParams(r, PathSegments(path), isEmail)
        case Err(_) => prev
        case Ok(m) => Some(m)
  }

  /** `Dispatch` and `ParamsAfter`, stage by stage, as `listen` runs. */
  lemma DispatchStages(t: Table, requestMethod: string, path: string, isEmail: string -> bool,
                       prev: Option<seq<(string, Value)>>)
    requires TableValid(t)
    ensures FirstMatch(t, path).None? ==>
      Dispatch(t, requestMethod, path, isEmail) == NotFound &&
      ParamsAfter(t, requestMethod, path, isEmail, prev) == prev
    ensures FirstMatch(t, path).Some? && !MethodAllowed(requestMethod, FirstMatch(t, path).value.verb) ==>
      Dispatch(t, requestMethod, path, isEmail) == MethodNotAllowed &&
      ParamsAfter(t, requestMethod, path, isEmail, prev) == prev
    ensures FirstMatch(t, path).Some? && MethodAllowed(requestMethod, FirstMatch(t, path).value.verb) ==>
      var r := FirstMatch(t, path).value;
      && WellFormed(r) && |Segments(r.pieces)| == |PathSegments(path)|
      && var b := BindParams(r, PathSegments(path), isEmail);
      && (b.Err? ==> Dispatch(t, requestMethod, path, isEmail) == Thrown(b.error) &&
                     ParamsAfter(t, requestMethod, path, isEmail, prev) == prev)
      && (b.Ok? ==> ParamsAfter(t, requestMethod, path, isEmail, prev) == Some(b.value) &&
                    Dispatch(t, requestMethod, path, isEmail) ==
                      match OrderArgs(r.callback.paramNames, b.value)
                      case Err(e) => Thrown(e)
                      case Ok(args) => Call(r.callback, args))
  {
    if FirstMatch(t, path).Some? {
      FirstMatchFacts(t, path);
    }
  }

  /** The outcome of a request whose route, method check and binding are
      known. */
  lemma DispatchFromBinding(t: Table, requestMethod: string, path: string, isEmail: string -> bool,
                            r: Route, segs: seq<string>, bound: Result<seq<(string, Value)>>)
    requires TableValid(t) && FirstMatch(t, path) == Some(r) && MethodAllowed(requestMethod, r.verb)
    requires segs == PathSegments(path)
    requires WellFormed(r) && |Segments(r.pieces)| == |segs| && BindParams(r, segs, isEmail) == bound
    ensures bound.Err? ==> Dispatch(t, requestMethod, path, isEmail) == Thrown(bound.error)
    ensures bound.Ok? && OrderArgs(r.callback.paramNames, bound.value).Err? ==>
      Dispatch(t, requestMethod, path, isEmail) == Thrown(OrderArgs(r.callback.paramNames, bound.value).error)
    ensures bound.Ok? && OrderArgs(r.callback.paramNames, bound.value).Ok? ==>
      Dispatch(t, requestMethod, path, isEmail) == Call(r.callback, OrderArgs(r.callback.paramNames, bound.value).value)
  {
  }

  /** 404 exactly when no route qualifies. */
  lemma DispatchNotFound(t: Table, requestMethod: string, path: string, isEmail: string -> bool)
    requires TableValid(t)
    ensures Dispatch(t, requestMethod, path, isEmail) == NotFound <==>
      forall i :: 0 <= i < |t| ==> !Qualifies(t[i].1, path)
  {
    FirstMatchSpec(t, path);
  }

  /** 405 exactly when the first qualifying route is for another method;
      it is decided before any parameter is bound, so neither the captured
      values nor the handler matter. */
  lemma DispatchMethodNotAllowed(t: Table, requestMethod: string, path: string, isEmail: string -> bool)
    requires TableValid(t)
    ensures Dispatch(t, requestMethod, path, isEmail) == MethodNotAllowed <==>
      FirstMatch(t, path).Some? && !MethodAllowed(requestMethod, FirstMatch(t, path).value.verb)
  {
  }

  /** A handler with more parameters than the route has distinct specs gets
      the arity error, whatever the captured values are. */
  lemma DispatchArity(t: Table, requestMethod: string, path: string, isEmail: string -> bool)
    requires TableValid(t) && FirstMatch(t, path).Some?
    requires MethodAllowed(requestMethod, FirstMatch(t, path).value.verb)
    requires var r := FirstMatch(t, path).value; |r.callback.paramNames| > |Dedup(r.params)|
    ensures var r := FirstMatch(t, path).value;
      Dispatch(t, requestMethod, path, isEmail) == Thrown(NotEnoughParams(r.params, r.callback.paramNames))
  {
    FirstMatchFacts(t, path);
    ArityCheck(FirstMatch(t, path).value, PathSegments(path), isEmail);
  }

  /** A call goes to the first qualifying route's handler, with one argument
      per declared parameter, the i-th being the value bound to the i-th
      parameter name. */
  lemma DispatchCall(t: Table, requestMethod: string, path: string, isEmail: string -> bool)
    requires TableValid(t)
    requires Dispatch(t, requestMethod, path, isEmail).Call?
    ensures FirstMatch(t, path).Some?
    ensures var r := FirstMatch(t, path).value;
      var out := Dispatch(t, requestMethod, path, isEmail);
      && WellFormed(r) && |Segments(r.pieces)| == |PathSegments(path)|
      && MethodAllowed(requestMethod, r.verb)
      && out.callback == r.callback
      && BindParams(r, PathSegments(path), isEmail).Ok?
      && |out.args| == |r.callback.paramNames|
      && forall i :: 0 <= i < |out.args| ==>
        Lookup(BindParams(r, PathSegments(path), isEmail).value, r.callback.paramNames[i]) == Some(out.args[i])
  {
    var r := FirstMatch(t, path).value;
    FirstMatchFacts(t, path);
    OrderArgsSpec(r.callback.paramNames, BindParams(r, PathSegments(path), isEmail).value);
  }

  /** `$params` changes only when binding succeeded, and then the request
      either calls the handler or throws for a handler name left unbound;
      every call leaves the binding it used in `$params`. */
  lemma ParamsChangeOnlyOnBinding(t: Table, requestMethod: string, path: string, isEmail: string -> bool,
                                  prev: Option<seq<(string, Value)>>)
    requires TableValid(t)
    ensures var out := Dispatch(t, requestMethod, path, isEmail);
      ParamsAfter(t, requestMethod, path, isEmail, prev) != prev ==>
        out.Call? || (out.Thrown? && out.error.MissingParam?)
    ensures Dispatch(t, requestMethod, path, isEmail).Call? ==>
      var r := FirstMatch(t, path).value;
      && WellFormed(r) && |Segments(r.pieces)| == |PathSegments(path)|
      && BindParams(r, PathSegments(path), isEmail).Ok?
      && ParamsAfter(t, requestMethod, path, isEmail, prev) == Some(BindParams(r, PathSegments(path), isEmail).value)
  {
    DispatchStages(t, requestMethod, path, isEmail, prev);
    if FirstMatch(t, path).Some? && MethodAllowed(requestMethod, FirstMatch(t, path).value.verb) {
      var r := FirstMatch(t, path).value;
      var b := BindParams(r, PathSegments(path), isEmail);
      if b.Ok? {
        OrderArgsSpec(r.callback.paramNames, b.value);
      }
    }
  }
}
