/**
 * The `enableCORS` middleware of cmd/api/middleware.go: as written, and the
 * behaviour its comments describe.
 */
module Cors {
  import opened Http

  const Vary := "Vary"
  const AllowOrigin := "Access-Control-Allow-Origin"
  const AllowMethods := "Access-Control-Allow-Methods"
  const AllowHeaders := "Access-Control-Allow-Headers"
  const RequestMethod := "Access-Control-Request-Method"
  const AllowedMethods := "OPTIONS, PUT, PATCH, DELETE"
  const AllowedHeaders := "Authorization, Content-Type"

  /** The parts of a request the middleware reads: its method (`verb`) and header. */
  datatype Request = Request(verb: string, header: Header)

  /** Whether the middleware answered the request itself or called the next handler. */
  datatype Outcome = PreflightAnswered | CallNext

  /** The response header and status after the middleware, and how it ended. */
  datatype Response = Response(header: Header, status: int, outcome: Outcome)

  /** OPTIONS with a non-empty Access-Control-Request-Method header. */
  predicate IsPreflight(r: Request)
  {
    r.verb == "OPTIONS" && HeaderGet(r.header, RequestMethod) != ""
  }

  /** The two preflight answer headers and the 200 status. */
  function AnswerPreflight(h: Header, status: int): (resp: Response)
    ensures resp.outcome == PreflightAnswered
    ensures resp.header == HeaderSet(HeaderSet(h, AllowMethods, AllowedMethods), AllowHeaders, AllowedHeaders)
    ensures resp.status == if status == NoStatus then StatusOK else status
  {
    Response(HeaderSet(HeaderSet(h, AllowMethods, AllowedMethods), AllowHeaders, AllowedHeaders),
             if status == NoStatus then StatusOK else status, PreflightAnswered)
  }

  /**
   * What the code as written does, in closed form: both Vary values go
   * through Set, so only the second survives; a preflight is answered on
   * the first loop iteration, after comparing with the first trusted origin only.
   */
  function CorsAsWritten(h: Header, status: int, r: Request, trusted: seq<string>): (resp: Response)
    ensures Vary in resp.header && resp.header[Vary] == [RequestMethod]
    ensures AllowOrigin in resp.header && AllowOrigin !in h ==>
              resp.header[AllowOrigin] == [HeaderGet(r.header, "Origin")] &&
              HeaderGet(r.header, "Origin") != "" && HeaderGet(r.header, "Origin") in trusted
    ensures resp.outcome == PreflightAnswered <==>
              IsPreflight(r) && HeaderGet(r.header, "Origin") != "" && |trusted| != 0
    ensures resp.outcome == PreflightAnswered ==> resp.status == if status == NoStatus then StatusOK else status
    ensures resp.outcome == CallNext ==> resp.status == status
    ensures var origin := HeaderGet(r.header, "Origin");
            !IsPreflight(r) && origin != "" && origin in trusted ==>
              AllowOrigin in resp.header && resp.header[AllowOrigin] == [origin]
    ensures resp.header.Keys <= h.Keys + {Vary, AllowOrigin, AllowMethods, AllowHeaders}
    ensures resp.outcome == CallNext ==> resp.header.Keys <= h.Keys + {Vary, AllowOrigin}
    ensures forall k :: k in h && k != Vary && k != AllowOrigin && k != AllowMethods && k != AllowHeaders ==>
              k in resp.header && resp.header[k] == h[k]
    ensures resp.outcome == PreflightAnswered ==>
              AllowMethods in resp.header && resp.header[AllowMethods] == [AllowedMethods] &&
              AllowHeaders in resp.header && resp.header[AllowHeaders] == [AllowedHeaders]
  {
    var h1 := HeaderSet(HeaderSet(h, Vary, "Origin"), Vary, RequestMethod);
    var origin := HeaderGet(r.header, "Origin");
    if origin != "" && |trusted| != 0 then
      if IsPreflight(r) then
        AnswerPreflight(if origin == trusted[0] then HeaderSet(h1, AllowOrigin, origin) else h1, status)
      else
        Response(if origin in trusted then HeaderSet(h1, AllowOrigin, origin) else h1, status, CallNext)
    else
      Response(h1, status, CallNext)
  }

  /** `enableCORS` over the response writer `w`, with the configured trusted origins. */
  method EnableCORS(w: ResponseWriter, r: Request, trusted: seq<string>) returns (outcome: Outcome)
    modifies w
    ensures Response(w.header, w.status, outcome) == CorsAsWritten(old(w.header), old(w.status), r, trusted)
  {
    w.Set(Vary, "Origin");
    w.Set(Vary, RequestMethod);
    ghost var h1 := w.header;
    var origin := HeaderGet(r.header, "Origin");
    if origin != "" && |trusted| != 0 {
      var i := 0;
      while i < |trusted|
        invariant 0 <= i <= |trusted|
        invariant i > 0 ==> !IsPreflight(r)
        invariant w.status == old(w.status)
        invariant w.header == if origin in trusted[..i] then HeaderSet(h1, AllowOrigin, origin) else h1
      {
        if origin == trusted[i] {
          w.Set(AllowOrigin, origin);
        }
        if r.verb == "OPTIONS" && HeaderGet(r.header, RequestMethod) != "" {
          assert i == 0 && trusted[..1] == [trusted[0]];
          w.Set(AllowMethods, AllowedMethods);
          w.Set(AllowHeaders, AllowedHeaders);
          w.WriteHeader(StatusOK);
          return PreflightAnswered;
        }
        assert trusted[..i + 1] == trusted[..i] + [trusted[i]];
        i := i + 1;
      }
      assert trusted[..i] == trusted;
    }
    return CallNext;
  }

  /** As written, the `Vary: Origin` value is always lost. */
  lemma VaryOriginLost(h: Header, status: int, r: Request, trusted: seq<string>)
    ensures Vary in CorsAsWritten(h, status, r, trusted).header
    ensures "Origin" !in CorsAsWritten(h, status, r, trusted).header[Vary]
  {
    SetOverwrites(h, Vary, "Origin", RequestMethod);
  }

  /**
   * As written, a preflight from the second of two trusted origins is
   * answered 200 without an Access-Control-Allow-Origin header.
   */
  lemma PreflightFromSecondOrigin()
    ensures var r := Request("OPTIONS", map["Origin" := ["https://b.example"], RequestMethod := ["PUT"]]);
            var resp := CorsAsWritten(map[], NoStatus, r, ["https://a.example", "https://b.example"]);
            resp.outcome == PreflightAnswered && resp.status == StatusOK && AllowOrigin !in resp.header
  {
  }

  /**
   * The behaviour the comments describe: both Vary values are kept, the
   * origin is granted when it is trusted, and a preflight is answered
   * (with the grant) exactly when its origin is trusted.
   */
  function CorsIntended(h: Header, status: int, r: Request, trusted: seq<string>): (resp: Response)
    ensures Vary in resp.header
    ensures Vary !in h ==> resp.header[Vary] == ["Origin", RequestMethod]
    ensures var origin := HeaderGet(r.header, "Origin");
            origin != "" && origin in trusted ==> AllowOrigin in resp.header && resp.header[AllowOrigin] == [origin]
    ensures var origin := HeaderGet(r.header, "Origin");
            AllowOrigin in resp.header && AllowOrigin !in h ==> origin != "" && origin in trusted
    ensures var origin := HeaderGet(r.header, "Origin");
            resp.outcome == PreflightAnswered <==> IsPreflight(r) && origin != "" && origin in trusted
    ensures resp.outcome == PreflightAnswered ==> resp.status == if status == NoStatus then StatusOK else status
    ensures resp.outcome == CallNext ==> resp.status == status
    ensures resp.header.Keys <= h.Keys + {Vary, AllowOrigin, AllowMethods, AllowHeaders}
    ensures resp.outcome == CallNext ==> resp.header.Keys <= h.Keys + {Vary, AllowOrigin}
    ensures forall k :: k in h && k != Vary && k != AllowOrigin && k != AllowMethods && k != AllowHeaders ==>
              k in resp.header && resp.header[k] == h[k]
    ensures resp.outcome == PreflightAnswered ==>
              AllowMethods in resp.header && resp.header[AllowMethods] == [AllowedMethods] &&
              AllowHeaders in resp.header && resp.header[AllowHeaders] == [AllowedHeaders]
  {
    var h1 := HeaderAdd(HeaderAdd(h, Vary, "Origin"), Vary, RequestMethod);
    AddKeepsBoth(h, Vary, "Origin", RequestMethod);
    var origin := HeaderGet(r.header, "Origin");
    if origin != "" && origin in trusted then
      var h2 := HeaderSet(h1, AllowOrigin, origin);
      if IsPreflight(r) then AnswerPreflight(h2, status) else Response(h2, status, CallNext)
    else
      Response(h1, status, CallNext)
  }

  /** Where the origin is the first trusted one and Vary starts empty, the two agree except on Vary. */
  lemma AgreeOnFirstOrigin(h: Header, status: int, r: Request, trusted: seq<string>)
    requires |trusted| != 0 && HeaderGet(r.header, "Origin") == trusted[0] != ""
    ensures CorsAsWritten(h, status, r, trusted).outcome == CorsIntended(h, status, r, trusted).outcome
    ensures CorsAsWritten(h, status, r, trusted).status == CorsIntended(h, status, r, trusted).status
    ensures AllowOrigin in CorsAsWritten(h, status, r, trusted).header
    ensures CorsAsWritten(h, status, r, trusted).header[AllowOrigin] == CorsIntended(h, status, r, trusted).header[AllowOrigin]
  {
  }
}
