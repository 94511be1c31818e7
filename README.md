# Quicc router, modelled in Dafny

Quicc is a one-class PHP micro-framework. An application registers routes by
calling a verb as a method (`$app->get('/users/{id:int}', function ($id) {…})`).
It then calls `listen()`, which:

- finds the first registered route whose pattern matches the request path and
  whose segment count equals the path's;
- answers 404 when there is none;
- answers 405 when the request method differs from the route's;
- binds the captured path segments to the route's parameter specs;
- coerces each value by its declared type (`int`, `bool`, `email`, or untyped);
- orders the values by the handler's declared parameter names and calls the
  handler.

A separate helper, `validate_input`, checks a query or form value against a
named filter.

This project models that pipeline and proves properties of it.

- `common.dfy` (module `Common`): `Option` for PHP `null`, and the exceptions
  as an `Error` datatype. Each constructor carries the pieces its message is
  built from. Also sequence helpers (`MapSeq`, `FlatMap`, `FirstIndex`).
- `text.dfy` (module `Text`): `explode`, `join`, `trim` and `strtoupper` on
  `seq<char>`, with lemmas relating `explode` and `join`.
- `assoc.dfy` (module `Assoc`): a PHP array as an ordered sequence of
  key/value pairs. `Put` is `$a[$k] = $v`: an existing key keeps its
  position, and a new key goes last.
- `coercion.dfy` (module `Coercion`):
  - the bound values (`Str`, `Int`, `Bool`);
  - `is_numeric` and `intval` (saturating at the 64-bit bounds, as PHP does
    within the range of a double);
  - the loose `in_array` test for boolean tokens, and `boolval`;
  - the per-value coercion step of `detect_params`;
  - `FILTER_VALIDATE_INT` and `validate_input`.
- `routes.dfy` (module `Routes`): the routing pipeline as functions.
  - Segment counting and template compilation.
  - Matching against the table, at segment level.
  - The table's registration invariant.
  - Binding, coercion, argument ordering and the outcome of a request
    (`Outcome`: `NotFound`, `MethodNotAllowed`, `Thrown(error)` or
    `Call(handler, args)`).
- `quicc.dfy` (module `Router`): class `Quicc`.
  - It has the fields `routes`, `route`, `uri` and `params`.
  - `count_url_pieces`, `parse_route`, `__call`, `detect_route`,
    `detect_params` and `listen` become Dafny methods with the same loops.
    The ordering loop of `listen` is its own method, `OrderParams`. Each
    method is proved to compute the matching function of `Routes`.
  - Three PHP methods are not methods here:
    - `validate_method` is the predicate `Routes.MethodAllowed`, tested
      inline in `Listen`;
    - `validate_input` is the function `Coercion.ValidateInput`, since it
      reads and changes no state;
    - `get_callback_params` is the field `Handler.paramNames`.
  - `Register` mutates the route table in place and keeps the table valid.
  - `Listen` assigns `uri`, `route` and `params` step by step, as the PHP does.
- `scenarios.dfy` (module `Scenarios`) follows a route `/<lit>/{<name>:int}`
  from registration to dispatch. The literal is any non-empty run of word
  characters (ASCII letters, digits and `_`), so the regular expression reads
  it as plain text. The name is any group name PCRE accepts: 1 to 32 word
  characters, not starting with a digit. For such a route:
  - a numeric segment reaches the handler as its `intval`;
  - any other segment throws "is not an integer";
  - another request method gets 405;
  - a one-segment path gets 404.

A route handler is a `Handler(id, paramNames)`. The names stand for what
`ReflectionFunction` reports. `Listen` returns the call it would make instead
of making it. The email and IP filters are parameters (`isEmail`, `isIp`).

### Matching at segment level

`detect_route` runs `preg_match` with a pattern in which every template piece
becomes a literal or `(?<name>.*)`, and the pieces are joined by `\/`. It
keeps a route only when its `piece_count` equals the path's.

The model abstracts that regular expression at segment level:

- a literal piece must equal the path segment;
- a capture piece accepts any segment;
- empty literals (from leading, trailing or doubled slashes) are dropped.

Dropping empty literals is a choice of the model, and it departs from the
PHP pattern. `parse_route` keeps every piece, blank ones included, and joins
them with a single `\/` (quicc.class.php:103, 108-133). Only the piece count
skips blank pieces (quicc.class.php:83). So a slash that the template repeats
or ends with must appear in the path too. "## Left out" lists the
consequences.

`Matches` keeps the unanchored nature of `preg_match` at segment level: the
pattern may match any run of consecutive segments, as `MatchesWindow` states.
In the model, `QualifiesAnchored` proves that the piece-count test turns
this into an aligned, one-to-one match. `MatchesPrefixed` shows that without
the count test a route would also accept longer paths.

The alignment holds in the model only, not in the PHP. There, `.*` can
match the empty string, so the unanchored pattern can match at an offset that
the count test does not rule out. For example, the template `/a/{x}` and the
path `/b/a/` both count 2 pieces, and `preg_match('/\/a\/(?<x>.*)/', '/b/a/')`
matches at offset 2. So `detect_route` returns that route and binds `x` to
`""`, where the model answers 404. "## Left out" lists this with the other
regular-expression behaviour the model does not capture.

### Behaviour of the code worth knowing

- Only the lower-case verb names `batch`, `delete`, `get`, `head`, `post` and
  `put` register a route (quicc.class.php:184-189). `GET` throws "is not an
  allowed method". `batch` is accepted, although it is not an HTTP method.
- A malformed template, with an unbalanced brace, is not an error at
  registration: the piece simply becomes a literal (quicc.class.php:112,
  126-129).
- A capture with a declared type other than `int`, `bool` or `email` (for
  example `{x:string}`) is silently dropped from the bound parameters
  (quicc.class.php:260-291: no `else` branch). A handler that asks for `x`
  then fails with "is missing from your callback" (quicc.class.php:483-486).
- A `bool` capture `"false"` is bound as `true`, because `boolval` is false
  only for `""` and `"0"` (quicc.class.php:280; `BoolValOfTokens`). The
  loose `in_array` also accepts `"00"`, `"+1"` and the like
  (quicc.class.php:275; `BooleanTokens`).
- The request method is upper-cased (quicc.class.php:169) before it is
  compared with the route's verb, which was upper-cased at registration
  (quicc.class.php:136). So the comparison ignores ASCII case.

## Model

| member | source | states |
|---|---|---|
| Router.Quicc.constructor | quicc.class.php:6-9 | A new router has an empty route table, no detected route, no URI and no parameters, and satisfies the table invariant. |
| Router.Quicc.CountUrlPieces | quicc.class.php:77-90 | The counting loop returns the number of `/`-separated pieces that are non-blank after trimming. |
| Routes.CountPiecesEmpty | quicc.class.php:77-90 | The empty path has zero pieces. |
| Routes.CountPiecesOuterSlashes | quicc.class.php:77-90 | A leading or trailing slash leaves the count unchanged. |
| Routes.CountPiecesDoubledSlash | quicc.class.php:77-90 | A doubled slash counts the same as a single one. |
| Routes.SegmentsOfJoin | quicc.class.php:81-86 | Non-blank, slash-free segments joined by `/` are read back as exactly those segments, and their number is the count. |
| Text.TrimEmptyIff | quicc.class.php:83 | `trim` gives the empty string exactly when the piece is all whitespace. |
| Text.JoinSplit | quicc.class.php:81 | Joining the pieces of `explode` with the delimiter gives back the original string. |
| Text.SplitJoin | quicc.class.php:103 | `explode` of delimiter-free pieces joined by the delimiter gives back those pieces. |
| Text.SplitPiecesFree | quicc.class.php:103 | No piece of `explode` contains the delimiter. |
| Router.Quicc.ParseRoute | quicc.class.php:100-140 | The piece-by-piece loop builds the compiled route: trimmed literals and named captures, the raw specs, the piece count and the upper-cased verb. |
| Routes.NameOf | quicc.class.php:116-120 | The capture name is the text of the spec before its first `:` (all of it when there is none). It is a prefix of the spec and holds no `:`. |
| Routes.CompileSpec | quicc.class.php:103-137 | The compiled route keeps the template as its name, upper-cases the verb, and stores the template's piece count. It has one segment piece per counted segment and one capture per spec, named by the spec's text before the first `:`. |
| Routes.SegmentsOfCompiled | quicc.class.php:108-130 | The non-empty pieces of a compiled template are the compiled non-blank template pieces, in order. |
| Routes.CapturesOfCompiled | quicc.class.php:112-125 | The capture names of a compiled template are the names of its parameter specs, left to right. |
| Text.UpperSpec | quicc.class.php:136 | `strtoupper` turns each lower-case ASCII letter into its capital (code point minus 32), leaves every other character unchanged, and so leaves no lower-case ASCII letter. |
| Text.UpperIdempotent | quicc.class.php:169 | Upper-casing an upper-cased verb changes nothing. |
| Router.Quicc.Register | quicc.class.php:182-192 | A name outside the allow-list throws and leaves the table unchanged. Otherwise the table becomes the old one with the compiled route assigned under the template. The table invariant is kept. |
| Routes.RegisterKeepsValid | quicc.class.php:191 | Assigning a compiled route under its template keeps the table free of repeated templates and every route well-formed. |
| Assoc.Put | quicc.class.php:191 | Array assignment sets the key's value and keeps its position if the key is present, or appends it. Every other key keeps its value, and unique keys stay unique. |
| Assoc.PutPut | quicc.class.php:191 | A second assignment to the same key erases the first. |
| Routes.LastWriteWins | quicc.class.php:191 | Re-registering a template gives the same table, and the same matches, as registering only the second route. |
| Routes.RegistrationOrderPriority | quicc.class.php:203-208 | A route registered under a new template never overrides a route already in the table that matches the path. |
| Router.Quicc.DetectRoute | quicc.class.php:199-212 | The early-return scan returns the first route in table order that matches and has the path's piece count, or `None`. |
| Routes.MatchIndex | quicc.class.php:203-211 | The position the scan stops at: a qualifying route with none qualifying before it, or the end of the table. |
| Routes.FirstMatchSpec | quicc.class.php:199-212 | No route is found exactly when none qualifies; otherwise the first qualifying one is returned. |
| Routes.MatchesWindow | quicc.class.php:205 | Segment-level matching is unanchored: it holds when the pattern matches at some offset into the path's segments. |
| Routes.MatchesPrefixed | quicc.class.php:205 | A match survives any segment put in front of the path. |
| Routes.QualifiesAnchored | quicc.class.php:205 | With the piece-count test, a route qualifies exactly when its segment pieces line up one to one with the path's segments. |
| Routes.CountMismatch | quicc.class.php:201-205 | A path whose segment count differs from the route's never qualifies. |
| Router.Quicc.DetectParams | quicc.class.php:220-299 | The first and last loops of `detect_params` (lines 226 and 256) compute the binding. The middle loop (line 246) collects the handler's parameter names, which the model takes from `Handler.paramNames`. The binding is the raw values, then the arity check, then coercion in order, stopping at the first failure. |
| Routes.RawParams | quicc.class.php:222-238 | There is one entry per distinct spec, in order of first occurrence, each holding the segment its capture took. |
| Routes.CaptureValue | quicc.class.php:232 | A spec's value is the segment aligned with the leftmost capture of its name. |
| Routes.ArityCheck | quicc.class.php:240-252 | The arity error is raised exactly when the handler declares more parameters than the route has distinct specs, whatever the captured values are. |
| Routes.CoerceNeverNotEnough | quicc.class.php:254-296 | Coercion never raises the arity error, so that error always comes from the check. |
| Routes.CoerceAllFailure | quicc.class.php:254-296 | Coercion fails exactly when some value fails its type check, and then with the error of the first failing value. |
| Routes.CoerceAllBindings | quicc.class.php:254-296 | On success, a name holds the value of the last entry bound under it, and a name no entry binds is absent. |
| Coercion.CoerceInt | quicc.class.php:264-271 | An `int` capture is bound to `intval` of the value when it is numeric; otherwise "is not an integer" is thrown. |
| Coercion.IntValRoundTrip | quicc.class.php:271 | Every 64-bit integer written in decimal is numeric, and `intval` reads it back. |
| Coercion.CoerceBool | quicc.class.php:273-280 | A `bool` capture is bound to `boolval` of the value when it is a boolean token; otherwise "is not a boolean" is thrown. |
| Coercion.BooleanTokens | quicc.class.php:262-275 | The loose `in_array` accepts "true", "false" and the numeric strings worth 0 or 1. |
| Coercion.BoolValOfTokens | quicc.class.php:280 | Of the accepted tokens only "0" is bound as false. |
| Coercion.CoerceEmail | quicc.class.php:282-289 | An `email` capture is bound unchanged when the filter accepts it; otherwise "is not a valid email address" is thrown. |
| Coercion.CoerceUnknownKind | quicc.class.php:258-291 | A two-part spec of any other type binds nothing. |
| Coercion.CoerceUntyped | quicc.class.php:292-295 | An untyped capture is bound unchanged under its spec. |
| Router.Quicc.OrderParams | quicc.class.php:479-489 | The ordering loop computes the arguments in the handler's declared order, throwing at the first unbound name. |
| Routes.OrderArgsSpec | quicc.class.php:479-489 | Ordering succeeds exactly when every handler name is bound. The i-th argument is then the value bound to the i-th name; otherwise the error names the first unbound one. |
| Router.Quicc.Listen | quicc.class.php:468-497 | `listen` returns the request's outcome and sets `uri` to the request path and `route` to the detected route. `params` becomes the binding when binding was reached and succeeded, and keeps its old value otherwise. |
| Routes.ParamsChangeOnlyOnBinding | quicc.class.php:477-491 | `params` changes only when binding succeeded, and the request then either calls the handler or throws for an unbound handler name. Every call leaves in `params` the binding it used. |
| Routes.DispatchNotFound | quicc.class.php:493-496 | 404 exactly when no registered route qualifies. |
| Routes.DispatchMethodNotAllowed | quicc.class.php:167-175 | 405 exactly when the first qualifying route is for another method. The method is checked before any value is bound. |
| Routes.DispatchArity | quicc.class.php:477 | With the method accepted, a handler with more parameters than the route's distinct specs gets the arity error, whatever the captured values are. |
| Routes.DispatchCall | quicc.class.php:481-491 | A call goes to the first qualifying route's handler, with the method accepted and binding successful. It has one argument per declared parameter, the i-th being the value bound to the i-th name. |
| Coercion.FilterInt | quicc.class.php:351 | An integer accepted by the filter is a numeric string inside the 64-bit range, and the integer is the value it denotes. |
| Coercion.FilterIntDecimal | quicc.class.php:351 | The filter accepts the decimal notation of every 64-bit integer. |
| Coercion.ValidateInput | quicc.class.php:348-372 | As written: an accepted value is returned unchanged. |
| Coercion.ValidateInputRejectsZero | quicc.class.php:361 | As written, the valid integer "0", which the filter accepts, is treated as rejected: it throws or yields null. |
| Coercion.ValidateInputIntendedSpec | quicc.class.php:348-372 | Intended check. An unknown type throws. An accepted value is returned unchanged. A rejected value throws when asked to and yields null otherwise. Every 64-bit integer in decimal is accepted for `int`. |
| Coercion.ValidateInputDiffersOnlyAtZero | quicc.class.php:361 | The code as written and the intended check differ exactly on accepted `int` values that the filter reads as 0. |
| Scenarios.CompileIntTemplate | quicc.class.php:100-140 | `/<lit>/{<name>:int}` compiles to an empty literal, the literal and a capture named `name`, with spec `name:int` and piece count 2. |
| Scenarios.RegisterIntTemplate | quicc.class.php:182-192 | Registering that template on an empty router gives a one-entry valid table. |
| Scenarios.MatchIntRoute | quicc.class.php:199-212 | The path `/<lit>/<value>` selects that route. |
| Scenarios.BindIntRoute | quicc.class.php:220-299 | The binding is `intval(value)` under `name` when the value is numeric, and "is not an integer" otherwise. |
| Scenarios.DispatchIntAccepted | quicc.class.php:468-497 | With the route's method and a numeric value, the handler `function($name)` is called with `intval(value)`. |
| Scenarios.DispatchIntRejected | quicc.class.php:468-497 | With the route's method and a value that is not numeric, the request throws "is not an integer" for `name`. |
| Scenarios.DispatchIntRoute | quicc.class.php:468-497 | With the route's method, the handler `function($name)` is called with `intval(value)` when the value is numeric; otherwise the request throws "is not an integer". |
| Scenarios.WrongMethodIntRoute | quicc.class.php:167-175 | The same path with another request method gets 405. |
| Scenarios.ShortPathIntRoute | quicc.class.php:199-212 | `/<lit>` alone has one segment where the route has two, so it gets 404. |
| Routes.CountPieces | quicc.class.php:77-90 | The value of `count_url_pieces`: the number of `/`-separated pieces that are non-blank after trimming. Its properties are in the `CountPieces…` lemmas and `SegmentsOfJoin`. |
| Routes.Compile | quicc.class.php:100-140 | The route `parse_route` returns: the template as name, one piece per `/`-separated template piece, the inner text of each `{…}` piece as a spec, the upper-cased verb and the piece count. `CompileSpec` states what it guarantees. |
| Routes.FirstMatch | quicc.class.php:199-212 | The route `detect_route` returns, or `None`: the route at the position `MatchIndex` states. `FirstMatchSpec` characterises it. |
| Routes.MethodAllowed | quicc.class.php:167-173 | `validate_method`: the upper-cased request method equals the route's verb. A mismatch is the 405 in `DispatchMethodNotAllowed`. |
| Routes.BindParams | quicc.class.php:220-299 | `detect_params` for a matched route: the raw values, then the arity check, then coercion in order. `ArityCheck`, `CoerceAllFailure` and `CoerceAllBindings` characterise it. |
| Routes.CoerceAll | quicc.class.php:254-296 | The coercion loop as a left fold. Its result has no repeated key. `CoerceAllFailure` and `CoerceAllBindings` state the rest. |
| Coercion.CoerceOne | quicc.class.php:256-295 | One round of the coercion loop: bind, drop, or throw. `CoerceInt`, `CoerceBool`, `CoerceEmail`, `CoerceUnknownKind` and `CoerceUntyped` state each branch. |
| Coercion.IsNumeric | quicc.class.php:266 | `is_numeric`, simplified to an optional sign followed by at least one decimal digit. `IntValRoundTrip` shows it holds for every 64-bit integer written in decimal. |
| Coercion.IntVal | quicc.class.php:271 | `intval` on a numeric string: the value it denotes, saturated at the 64-bit bounds, as PHP does for strings within the range of a double. `IntValRoundTrip` reads every 64-bit decimal back. |
| Coercion.InBooleans | quicc.class.php:275 | `in_array` over "0", "1", "true" and "false" with loose comparison. `BooleanTokens` characterises it. |
| Coercion.BoolVal | quicc.class.php:280 | `boolval` on a string: false only for "" and "0". `BoolValOfTokens` states it over the accepted tokens. |
| Routes.OrderArgs | quicc.class.php:479-489 | The arguments in the handler's declared order, or the error for the first unbound name. `OrderArgsSpec` characterises it. |
| Routes.Dispatch | quicc.class.php:468-497 | What `listen` does with one request: 404, 405, the binding or ordering exception, or the call. `DispatchNotFound`, `DispatchMethodNotAllowed`, `DispatchArity` and `DispatchCall` characterise it. |
| Routes.ParamsAfter | quicc.class.php:468-497 | `$params` after `listen`: the binding when binding was reached and succeeded, the earlier value otherwise. `ParamsChangeOnlyOnBinding` relates it to the outcome. |
| Assoc.Dedup | quicc.class.php:222-238 | The keys an array ends up with when each spec is assigned in turn: exactly the elements of the input, without repeats, in the order of their first occurrence. |

## Left out

- The constructor's configuration merge, `ini_set` and the `mysqli`
  connection are process set-up and I/O (quicc.class.php:17-35).
- `set_content_type` and `set_response_header` send headers and `exit`. The
  model keeps only their effect, the outcomes `NotFound` and
  `MethodNotAllowed`.
- `json`, `xml` and `build_xml` are output serialisation over `json_encode`
  and `SimpleXMLElement`.
- `qs` and `data` read request input (`filter_input`, `php://input`,
  `json_decode`). Only the `validate_input` decision they call is modelled.
  `get_params` only returns the field, so it is the field `params`.
- `ReflectionFunction` is not modelled: a handler carries its parameter
  names as a sequence.
- `call_user_func_array` is not modelled: `Listen` returns
  `Call(handler, args)` instead of calling.
- The PCRE engine is not modelled. The segment-level abstraction leaves out:
  - a greedy `.*` capture that may run across slashes;
  - literals matched as substrings of a segment (the pattern is not anchored
    inside a segment);
  - regular-expression metacharacters in a template, which are not escaped.
    A piece held as a literal here can make the PHP pattern fail to compile
    (an unbalanced `(`, say). That route is then selected for every path with
    its piece count, as for an invalid group name below;
  - a blank template piece (a trailing or doubled slash, or a piece of only
    whitespace): the PHP pattern still requires its slash, so the route
    `/users/{id}/` does not serve `/users/42` (404), while the model serves
    it;
  - a blank path piece between two literals: a doubled slash in the path
    breaks the PHP match, so the route `/a/b` does not serve `/a//b`, while
    the model serves it;
  - a pattern that does not compile, for example one with an invalid or
    repeated group name. Then `preg_match` returns false, and `false !== 0`
    holds at quicc.class.php:205, so the route is selected for every path with
    its piece count. In `detect_params`, `preg_match_all` (line 222) also
    fails and leaves `$matches` null, so every capture read at line 232 is
    null, with a warning and no exception. A typed capture then throws its
    type error (lines 266-268, 275-277, 284-286). An untyped capture is
    bound to null (line 294), and the handler is called. For example,
    `/{id}/{id}` with `function($id)` serves every two-piece path and calls
    the handler with `null`;
  - an empty capture at an offset: `.*` matches the empty string, so a path
    with the route's piece count can match at a later offset. For example,
    `/a/{x}` serves `/b/a/` with `x` bound to `""`, where the model answers
    404.
- `preg_match_all` is not modelled: a capture takes the segment aligned with
  the first capture of its name.
- Coercion.IsNumeric: is simplified to an optional sign and decimal digits.
  PHP's leading and trailing whitespace (`" 42"`, `"42 "`), decimal points
  and exponents are not modelled.
- Coercion.IntVal: saturates at the 64-bit bounds for every numeric string.
  PHP converts a string beyond the 64-bit range through a double, which also
  saturates. But a string beyond the range of a double (about 1.8e308, that
  is 309 digits or more) becomes infinite, and `intval` then gives 0. So such
  an `{n:int}` segment is bound as 0 in PHP, and as `IntMax` or `IntMin` here.
- Coercion.LooseEquals: compares two numeric strings by their integer value,
  under the same simplification.
- Coercion.FilterInt: does not strip surrounding whitespace as
  `FILTER_VALIDATE_INT` does, and does not model the filter's options.
- The email and IP filters (`FILTER_VALIDATE_EMAIL`, `FILTER_VALIDATE_IP`)
  are abstract predicates passed in as parameters.
- Coercion.ValidateInput: `filter_var` on a non-string value (a decoded JSON
  array or number from `data`) is not modelled, because values are strings
  here.
- Router.Quicc.DetectParams: the undefined `$matches` index (a null value and
  a warning) is not modelled. It arises only when the route's pattern does
  not compile (see the PCRE item above). In the model, a well-formed matched
  route always has the group.
- Numeric-string array keys (PHP turns a key like `"1"` into the integer 1)
  are not modelled: keys are strings throughout.

## Findings

| source | as written | input that shows it | evidently intended | confidence | as-written member | corrected member |
|---|---|---|---|---|---|---|
| quicc.class.php:361 | `if(filter_var($value, FILTER_VALIDATE_INT))` treats the filter's result as a truth value, and the filter returns the integer itself | `validate_input("0", "int", …)` rejects the valid integer 0: it throws "is not valid" or returns null | accept every value the filter accepts (`filter_var(...) !== false`) | not executed | Coercion.ValidateInputRejectsZero | Coercion.ValidateInputIntendedSpec |
