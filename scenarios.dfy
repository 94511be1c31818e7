/** A route with one literal segment and one typed capture, followed from
    registration to dispatch: `/<lit>/{<name>:int}`. */
module Scenarios {
  import opened Common
  import opened Text
  import opened Assoc
  import opened Coercion
  import opened Routes

  /** A character PCRE counts as a word character: an ASCII letter, a digit
      or `_`. */
  predicate IsWordChar(c: char) {
    'a' <= c <= 'z' || 'A' <= c <= 'Z' || '0' <= c <= '9' || c == '_'
  }

  /** A piece that compiles to the literal itself and that the regular
      expression reads as plain text: a non-empty run of word characters. */
  predicate PlainSegment(s: string) {
    |s| > 0 && forall i :: 0 <= i < |s| ==> IsWordChar(s[i])
  }

  /** A capture name PCRE accepts as a group name: one to 32 word
      characters, not starting with a digit. */
  predicate PlainName(name: string) {
    0 < |name| <= 32 && !('0' <= name[0] <= '9') &&
    forall i :: 0 <= i < |name| ==> IsWordChar(name[i])
  }

  /** A plain segment holds no slash, needs no trimming and is no capture. */
  lemma PlainSegmentShape(s: string)
    requires PlainSegment(s)
    ensures '/' !in s && !IsSpace(s[0]) && !IsSpace(s[|s| - 1]) && !IsCapturePiece(s)
  {
    assert IsWordChar(s[0]) && IsWordChar(s[|s| - 1]);
  }

  function IntCapture(name: string): string {
    "{" + name + ":int}"
  }

  function IntTemplate(lit: string, name: string): string {
    "/" + lit + "/" + IntCapture(name)
  }

  lemma SplitThree(a: string, b: string, c: string)
    requires '/' !in a && '/' !in b && '/' !in c
    ensures Split(a + "/" + b + "/" + c, '/') == [a, b, c]
  {
    var xs := [a, b, c];
    assert xs[1..] == [b, c];
    assert xs[1..][1..] == [c];
    assert Join(xs[1..], '/') == b + ['/'] + c;
    assert a + ['/'] + (b + ['/'] + c) == a + "/" + b + "/" + c;
    SplitJoin(xs, '/');
  }

  lemma CaptureShape(name: string)
    requires PlainName(name)
    ensures '/' !in IntCapture(name)
    ensures Trim(IntCapture(name)) == IntCapture(name)
    ensures IsCapturePiece(IntCapture(name))
    ensures Inner(IntCapture(name)) == name + ":int"
    ensures NameOf(name + ":int") == name
  {
    var c := IntCapture(name);
    assert c == ['{'] + name + [':', 'i', 'n', 't', '}'];
    TrimClean(c);
    assert c[1..|c| - 1] == name + ":int";
    TypedSpecSplit(name, "int");
    assert name + ":" + "int" == name + ":int";
  }

  lemma PiecesOf(lit: string, name: string)
    requires PlainSegment(lit) && PlainName(name)
    ensures CompilePieces(["", lit, IntCapture(name)]) == [Literal(""), Literal(lit), Capture(name)]
    ensures ParamSpecs(["", lit, IntCapture(name)]) == [name + ":int"]
    ensures NonBlank(["", lit, IntCapture(name)]) == [lit, IntCapture(name)]
  {
    var c := IntCapture(name);
    CaptureShape(name);
    TrimClean("");
    TrimClean(lit);
    assert ["", lit, c] == ["", lit] + [c];
    assert ["", lit] == [""] + [lit];
    FlatMapSnoc(SpecOf, ["", lit], c);
    FlatMapSnoc(SpecOf, [""], lit);
    FlatMapSingle(SpecOf, "");
    FlatMapSnoc(KeepNonBlank, ["", lit], c);
    FlatMapSnoc(KeepNonBlank, [""], lit);
    FlatMapSingle(KeepNonBlank, "");
  }

  /** What `parse_route` builds from `/<lit>/{<name>:int}`. */
  lemma CompileIntTemplate(lit: string, name: string, verb: string, h: Handler)
    requires PlainSegment(lit) && PlainName(name)
    ensures Compile(IntTemplate(lit, name), verb, h) ==
      Route(IntTemplate(lit, name), [Literal(""), Literal(lit), Capture(name)], [name + ":int"], h, Upper(verb), 2)
  {
    CaptureShape(name);
    SplitThree("", lit, IntCapture(name));
    assert "" + "/" + lit + "/" + IntCapture(name) == IntTemplate(lit, name);
    PiecesOf(lit, name);
  }

  /** The segments of a request path `/<lit>/<value>`. */
  lemma PathOf(lit: string, value: string)
    requires PlainSegment(lit) && '/' !in value && Trim(value) != ""
    ensures PathSegments("/" + lit + "/" + value) == [lit, value]
  {
    SplitThree("", lit, value);
    assert "" + "/" + lit + "/" + value == "/" + lit + "/" + value;
    TrimClean("");
    TrimClean(lit);
    assert ["", lit, value] == ["", lit] + [value];
    assert ["", lit] == [""] + [lit];
    FlatMapSnoc(KeepNonBlank, ["", lit], value);
    FlatMapSnoc(KeepNonBlank, [""], lit);
    FlatMapSingle(KeepNonBlank, "");
  }

  lemma SegmentsOf(lit: string, name: string)
    requires lit != ""
    ensures Segments([Literal(""), Literal(lit), Capture(name)]) == [Literal(lit), Capture(name)]
  {
    var ps := [Literal(""), Literal(lit), Capture(name)];
    assert ps == [Literal(""), Literal(lit)] + [Capture(name)];
    assert [Literal(""), Literal(lit)] == [Literal("")] + [Literal(lit)];
    FlatMapSnoc(KeepSegment, [Literal(""), Literal(lit)], Capture(name));
    FlatMapSnoc(KeepSegment, [Literal("")], Literal(lit));
    FlatMapSingle(KeepSegment, Literal(""));
  }

  /** The table after `$app->get('/<lit>/{<name>:int}', $h)` on an empty router. */
  function IntTable(lit: string, name: string, h: Handler): Table {
    [(IntTemplate(lit, name), Compile(IntTemplate(lit, name), "get", h))]
  }

  lemma RegisterIntTemplate(lit: string, name: string, h: Handler)
    ensures Put([], IntTemplate(lit, name), Compile(IntTemplate(lit, name), "get", h)) == IntTable(lit, name, h)
    ensures TableValid(IntTable(lit, name, h))
  {
    RegisterKeepsValid([], IntTemplate(lit, name), "get", h);
  }

  /** The compiled route of `/<lit>/{<name>:int}`. */
  function IntRoute(lit: string, name: string, h: Handler): Route {
    Route(IntTemplate(lit, name), [Literal(""), Literal(lit), Capture(name)], [name + ":int"], h, Upper("get"), 2)
  }

  /** The path `/<lit>/<value>` selects the route. */
  lemma MatchIntRoute(lit: string, name: string, h: Handler, value: string)
    requires PlainSegment(lit) && PlainName(name)
    requires '/' !in value && Trim(value) != ""
    ensures TableValid(IntTable(lit, name, h))
    ensures FirstMatch(IntTable(lit, name, h), "/" + lit + "/" + value) == Some(IntRoute(lit, name, h))
  {
    var t := IntTable(lit, name, h);
    var path := "/" + lit + "/" + value;
    PlainSegmentShape(lit);
    RegisterIntTemplate(lit, name, h);
    CompileIntTemplate(lit, name, "get", h);
    PathOf(lit, value);
    SegmentsOf(lit, name);
    assert MatchesAt([Literal(lit), Capture(name)], [lit, value]);
    assert Qualifies(t[0].1, path);
    FirstMatchAt(t, path, 0);
  }

  lemma CaptureNamesOf(lit: string, name: string)
    ensures CaptureNames([Literal(lit), Capture(name)]) == [name]
  {
    assert [Literal(lit), Capture(name)] == [Literal(lit)] + [Capture(name)];
    FlatMapSnoc(CaptureNameOf, [Literal(lit)], Capture(name));
    FlatMapSingle(CaptureNameOf, Literal(lit));
  }

  lemma RawIntRoute(lit: string, name: string, value: string)
    requires PlainName(name)
    requires forall s :: s in [name + ":int"] ==> NameOf(s) in CaptureNames([Literal(lit), Capture(name)])
    ensures RawParams([name + ":int"], [Literal(lit), Capture(name)], [lit, value]) == [(name + ":int", value)]
  {
    var pat, segs := [Literal(lit), Capture(name)], [lit, value];
    var spec := name + ":int";
    CaptureShape(name);
    CaptureNamesOf(lit, name);
    assert [spec][..0] == [];
    assert FirstCaptureAt(pat, name, 1);
    assert CaptureValue(pat, segs, name) == value;
  }

  lemma CoerceIntRoute(name: string, value: string, isEmail: string -> bool)
    requires PlainName(name)
    ensures CoerceAll([(name + ":int", value)], Coercer(isEmail)) ==
      if IsNumeric(value) then Ok([(name, Int(IntVal(value)))]) else Err(NotInteger(name))
  {
    var e: (string, string) := (name + ":int", value);
    CoerceInt(name, value, isEmail);
    assert [e][..0] == [];
    assert CoerceAll([], Coercer(isEmail)) == Ok([]);
    assert Coercer(isEmail)(e.0, e.1) == CoerceOne(e.0, e.1, isEmail);
    assert forall v: Value :: Put([], name, v) == [(name, v)];
  }

  /** Binding `<value>` to `{<name>:int}`. */
  lemma BindIntRoute(lit: string, name: string, h: Handler, value: string, isEmail: string -> bool)
    requires PlainSegment(lit) && PlainName(name) && h.paramNames == [name]
    ensures WellFormed(IntRoute(lit, name, h))
    ensures BindParams(IntRoute(lit, name, h), [lit, value], isEmail) ==
      if IsNumeric(value) then Ok([(name, Int(IntVal(value)))]) else Err(NotInteger(name))
  {
    var r := IntRoute(lit, name, h);
    CompileIntTemplate(lit, name, "get", h);
    CompileSpec(IntTemplate(lit, name), "get", h);
    SegmentsOf(lit, name);
    SpecsNameCaptures(r);
    RawIntRoute(lit, name, value);
    CoerceIntRoute(name, value, isEmail);
  }

  /** The handler `function($<name>)` receives the one bound value. */
  lemma OrderIntRoute(name: string, v: Value)
    ensures OrderArgs([name], [(name, v)]) == Ok([v])
  {
    var m := [(name, v)];
    assert IndexOf(m, name) == 0;
    assert Lookup(m, name) == Some(v);
    assert [name][1..] == [];
    assert OrderArgs([], m) == Ok([]);
    assert [v] + [] == [v];
    assert OrderArgs([name], m) == Ok([v] + []);
  }

  /** The route found, the method accepted and the path's segments, for a
      request `/<lit>/<value>` with the route's method. */
  lemma RequestIntRoute(lit: string, name: string, h: Handler, value: string, requestMethod: string)
    requires PlainSegment(lit) && PlainName(name)
    requires '/' !in value && Trim(value) != ""
    requires Upper(requestMethod) == Upper("get")
    ensures TableValid(IntTable(lit, name, h))
    ensures FirstMatch(IntTable(lit, name, h), "/" + lit + "/" + value) == Some(IntRoute(lit, name, h))
    ensures MethodAllowed(requestMethod, IntRoute(lit, name, h).verb)
    ensures PathSegments("/" + lit + "/" + value) == [lit, value]
  {
    MatchIntRoute(lit, name, h, value);
    PathOf(lit, value);
  }

  /** A found route whose one handler parameter is bound to `v` is called
      with `[v]`. */
  lemma AcceptedAt(t: Table, requestMethod: string, path: string, isEmail: string -> bool,
                   r: Route, segs: seq<string>, name: string, v: Value)
    requires TableValid(t) && FirstMatch(t, path) == Some(r) && MethodAllowed(requestMethod, r.verb)
    requires segs == PathSegments(path) && r.callback.paramNames == [name]
    requires WellFormed(r) && |Segments(r.pieces)| == |segs| && BindParams(r, segs, isEmail) == Ok([(name, v)])
    ensures Dispatch(t, requestMethod, path, isEmail) == Call(r.callback, [v])
  {
    OrderIntRoute(name, v);
    DispatchFromBinding(t, requestMethod, path, isEmail, r, segs, Ok([(name, v)]));
  }

  /** A numeric value reaches the handler as its `intval`. */
  lemma DispatchIntAccepted(lit: string, name: string, h: Handler, value: string,
                            requestMethod: string, isEmail: string -> bool)
    requires PlainSegment(lit) && PlainName(name) && h.paramNames == [name]
    requires '/' !in value && Trim(value) != "" && IsNumeric(value)
    requires Upper(requestMethod) == Upper("get")
    ensures TableValid(IntTable(lit, name, h))
    ensures Dispatch(IntTable(lit, name, h), requestMethod, "/" + lit + "/" + value, isEmail) ==
      Call(h, [Int(IntVal(value))])
  {
    RequestIntRoute(lit, name, h, value, requestMethod);
    BindIntRoute(lit, name, h, value, isEmail);
    AcceptedAt(IntTable(lit, name, h), requestMethod, "/" + lit + "/" + value, isEmail,
               IntRoute(lit, name, h), [lit, value], name, Int(IntVal(value)));
  }

  /** Any other value throws "is not an integer". */
  lemma DispatchIntRejected(lit: string, name: string, h: Handler, value: string,
                            requestMethod: string, isEmail: string -> bool)
    requires PlainSegment(lit) && PlainName(name) && h.paramNames == [name]
    requires '/' !in value && Trim(value) != "" && !IsNumeric(value)
    requires Upper(requestMethod) == Upper("get")
    ensures TableValid(IntTable(lit, name, h))
    ensures Dispatch(IntTable(lit, name, h), requestMethod, "/" + lit + "/" + value, isEmail) ==
      Thrown(NotInteger(name))
  {
    var t, path, r := IntTable(lit, name, h), "/" + lit + "/" + value, IntRoute(lit, name, h);
    RequestIntRoute(lit, name, h, value, requestMethod);
    BindIntRoute(lit, name, h, value, isEmail);
    DispatchFromBinding(t, requestMethod, path, isEmail, r, [lit, value], Err(NotInteger(name)));
  }

  /** A request for `/<lit>/<value>` with the route's method reaches the
      handler with `intval(value)` when the value is numeric, and throws
      "is not an integer" otherwise. */
  lemma DispatchIntRoute(lit: string, name: string, h: Handler, value: string,
                         requestMethod: string, isEmail: string -> bool)
    requires PlainSegment(lit) && PlainName(name) && h.paramNames == [name]
    requires '/' !in value && Trim(value) != ""
    requires Upper(requestMethod) == Upper("get")
    ensures TableValid(IntTable(lit, name, h))
    ensures Dispatch(IntTable(lit, name, h), requestMethod, "/" + lit + "/" + value, isEmail) ==
      if IsNumeric(value) then Call(h, [Int(IntVal(value))]) else Thrown(NotInteger(name))
  {
    if IsNumeric(value) {
      DispatchIntAccepted(lit, name, h, value, requestMethod, isEmail);
    } else {
      DispatchIntRejected(lit, name, h, value, requestMethod, isEmail);
    }
  }

  /** The same path with another request method is answered 405. */
  lemma WrongMethodIntRoute(lit: string, name: string, h: Handler, value: string,
                            requestMethod: string, isEmail: string -> bool)
    requires PlainSegment(lit) && PlainName(name)
    requires '/' !in value && Trim(value) != ""
    requires Upper(requestMethod) != Upper("get")
    ensures TableValid(IntTable(lit, name, h))
    ensures Dispatch(IntTable(lit, name, h), requestMethod, "/" + lit + "/" + value, isEmail) == MethodNotAllowed
  {
    MatchIntRoute(lit, name, h, value);
  }

  /** `/<lit>` alone has one segment where the route has two: 404. */
  lemma ShortPathIntRoute(lit: string, name: string, h: Handler, requestMethod: string,
                          isEmail: string -> bool)
    requires PlainSegment(lit) && PlainName(name)
    ensures TableValid(IntTable(lit, name, h))
    ensures Dispatch(IntTable(lit, name, h), requestMethod, "/" + lit, isEmail) == NotFound
  {
    var t := IntTable(lit, name, h);
    RegisterIntTemplate(lit, name, h);
    CompileIntTemplate(lit, name, "get", h);
    SegmentsOf(lit, name);
    CompileSpec(IntTemplate(lit, name), "get", h);
    CountPiecesOuterSlashes(lit);
    SplitFree(lit, '/');
    TrimClean(lit);
    FlatMapSingle(KeepNonBlank, lit);
    assert CountPieces("/" + lit) == 1;
    CountMismatch(t[0].1, "/" + lit);
    DispatchNotFound(t, requestMethod, "/" + lit, isEmail);
  }
}
