/** The Quicc router object: its route table, filled in place by
    registration, and the request state that `listen` assigns step by step.
    Every method is proved to compute the functions of module Routes. */
module Router {
  import opened Common
  import opened Text
  import opened Assoc
  import opened Coercion
  import opened Routes

  class Quicc {
    /** `$routes`: template to compiled route, in registration order. */
    var routes: Table
    /** `$route`: the route `listen` detected, `None` for `null`. */
    var route: Option<Route>
    /** `$uri`: the request path `listen` is handling. */
    var uri: Option<string>
    /** `$params`: the bound parameters of the last successful binding. */
    var params: Option<seq<(string, Value)>>

    /** Every registered route is a compiled one, under its own template. */
    ghost predicate Valid()
      reads this
    {
      TableValid(routes)
    }

    /** A router with no routes and no request state. */
    constructor ()
      ensures Valid()
      ensures routes == [] && route == None && uri == None && params == None
    {
      routes := [];
      route := None;
      uri := None;
      params := None;
    }

    /** `count_url_pieces`: one pass over the `/`-separated pieces. */
    method CountUrlPieces(value: string) returns (counter: nat)
      ensures counter == CountPieces(value)
    {
      counter := 0;
      var pieces := Split(value, '/');
      for i := 0 to |pieces|
        invariant counter == |NonBlank(pieces[..i])|
      {
        NonBlankStep(pieces, i);
        if Trim(pieces[i]) != "" {
          counter := counter + 1;
        }
      }
      TakeAll(pieces);
    }

    /** `parse_route`: builds the piece list and the parameter specs piece
        by piece. */
    method ParseRoute(template: string, verb: string, callback: Handler) returns (r: Route)
      ensures r == Compile(template, verb, callback)
    {
      var pieces := Split(template, '/');
      var pieceCount := CountUrlPieces(template);
      var pattern: seq<Piece> := [];
      var specs: seq<string> := [];
      for i := 0 to |pieces|
        invariant pattern == CompilePieces(pieces[..i])
        invariant specs == ParamSpecs(pieces[..i])
      {
        CompileStep(pieces, i);
        var piece := Trim(pieces[i]);
        if |piece| > 0 && piece[0] == '{' && piece[|piece| - 1] == '}' {
          var param := piece[1..|piece| - 1];
          var patternParam := param;
          var parts := Split(param, ':');
          if |parts| > 0 {
            patternParam := parts[0];
          }
          pattern := pattern + [Capture(patternParam)];
          specs := specs + [param];
        } else {
          pattern := pattern + [Literal(piece)];
        }
      }
      TakeAll(pieces);
      r := Route(template, pattern, specs, callback, Upper(verb), pieceCount);
    }

    /** `__call($name, [$template, $callback])`: registers a route for an
        allowed verb under its template, in place; any other name throws and
        leaves the table as it was. */
    method Register(name: string, template: string, callback: Handler) returns (res: Result<()>)
      requires Valid()
      modifies this`routes
      ensures Valid()
      ensures name !in AllowedCalls ==> res == Err(NotAllowedMethod(name)) && routes == old(routes)
      ensures name in AllowedCalls ==>
        res == Ok(()) && routes == Put(old(routes), template, Compile(template, name, callback))
    {
      if name !in AllowedCalls {
        return Err(NotAllowedMethod(name));
      }
      var r := ParseRoute(template, name, callback);
      RegisterKeepsValid(routes, template, name, callback);
      routes := Put(routes, template, r);
      return Ok(());
    }

    /** `detect_route`: scans the table in order and stops at the first
        route that matches and has the path's piece count. */
    method DetectRoute() returns (found: Option<Route>)
      requires uri.Some?
      ensures found == FirstMatch(routes, uri.value)
    {
      var path := uri.value;
      var pieceCount := CountUrlPieces(path);
      var i := 0;
      while i < |routes|
        invariant 0 <= i <= |routes|
        invariant forall j :: 0 <= j < i ==> !Qualifies(routes[j].1, path)
      {
        var r := routes[i].1;
        if Matches(Segments(r.pieces), PathSegments(path)) && r.pieceCount == pieceCount {
          FirstMatchAt(routes, path, i);
          return Some(r);
        }
        i := i + 1;
      }
      FirstMatchAt(routes, path, i);
      return None;
    }

    /** `detect_params`: collects the captured segment of each spec, checks
        the handler's arity, then coerces each value in turn. */
    method DetectParams(isEmail: string -> bool) returns (res: Result<seq<(string, Value)>>)
      requires route.Some? && uri.Some?
      requires WellFormed(route.value) && |Segments(route.value.pieces)| == |PathSegments(uri.value)|
      ensures res == BindParams(route.value, PathSegments(uri.value), isEmail)
    {
      var r := route.value;
      var pat, segs := Segments(r.pieces), PathSegments(uri.value);
      SpecsNameCaptures(r);
      var raw: seq<(string, string)> := [];
      for i := 0 to |r.params|
        invariant raw == RawParams(r.params[..i], pat, segs)
      {
        RawParamsStep(r.params, pat, segs, i);
        var param := r.params[i];
        var pieces := Split(param, ':');
        raw := Put(raw, param, CaptureValue(pat, segs, pieces[0]));
      }
      TakeAll(r.params);
      if |r.callback.paramNames| > |raw| {
        return Err(NotEnoughParams(r.params, r.callback.paramNames));
      }
      var coerce := Coercer(isEmail);
      var processed: seq<(string, Value)> := [];
      for i := 0 to |raw|
        invariant CoerceAll(raw[..i], coerce) == Ok(processed)
      {
        CoerceAllStep(raw, coerce, i, processed);
        var (key, value) := raw[i];
        var pieces := Split(key, ':');
        if |pieces| == 2 {
          if pieces[1] == "int" {
            if !IsNumeric(value) {
              CoerceAllPrefixErr(raw, coerce, i + 1);
              return Err(NotInteger(pieces[0]));
            }
            processed := Put(processed, pieces[0], Int(IntVal(value)));
          } else if pieces[1] == "bool" {
            if !InBooleans(value) {
              CoerceAllPrefixErr(raw, coerce, i + 1);
              return Err(NotBoolean(pieces[0]));
            }
            processed := Put(processed, pieces[0], Bool(BoolVal(value)));
          } else if pieces[1] == "email" {
            if !isEmail(value) {
              CoerceAllPrefixErr(raw, coerce, i + 1);
              return Err(NotEmail(pieces[0]));
            }
            processed := Put(processed, pieces[0], Str(value));
          }
        } else {
          processed := Put(processed, key, Str(value));
        }
      }
      TakeAll(raw);
      return Ok(processed);
    }

    /** The ordering loop of `listen`: the bound value of each handler
        parameter name, in declaration order; the first unbound name throws. */
    method OrderParams(names: seq<string>, m: seq<(string, Value)>) returns (res: Result<seq<Value>>)
      ensures res == OrderArgs(names, m)
    {
      var ordered: seq<Value> := [];
      for i := 0 to |names|
        invariant |ordered| == i
        invariant forall j :: 0 <= j < i ==> Lookup(m, names[j]) == Some(ordered[j])
      {
        var v := Lookup(m, names[i]);
        if v.None? {
          OrderArgsStops(names, m, i);
          return Err(MissingParam(names[i]));
        }
        ordered := ordered + [v.value];
      }
      OrderArgsComplete(names, m, ordered);
      return Ok(ordered);
    }

    /** `listen`: detects the route, checks the method, binds the
        parameters and orders them by the handler's parameter names. The
        404 and 405 responses and the exceptions end the request as
        outcomes; a call is returned instead of made. */
    method Listen(requestMethod: string, requestUri: string, isEmail: string -> bool) returns (out: Outcome)
      requires Valid()
      modifies this`uri, this`route, this`params
      ensures Valid()
      ensures out == Dispatch(routes, requestMethod, requestUri, isEmail)
      ensures uri == Some(requestUri) && route == FirstMatch(routes, requestUri)
      ensures params == ParamsAfter(routes, requestMethod, requestUri, isEmail, old(params))
    {
      DispatchStages(routes, requestMethod, requestUri, isEmail, params);
      uri := Some(requestUri);
      var found := DetectRoute();
      route := found;
      if found.None? {
        return NotFound;
      }
      var r := found.value;
      if Upper(requestMethod) != r.verb {
        return MethodNotAllowed;
      }
      var bound := DetectParams(isEmail);
      if bound.Err? {
        return Thrown(bound.error);
      }
      params := Some(bound.value);
      var ordered := OrderParams(r.callback.paramNames, bound.value);
      if ordered.Err? {
        return Thrown(ordered.error);
      }
      return Call(r.callback, ordered.value);
    }
  }
}
