/** The request routing of newClient in server/server.go: each line a
    client sends names a method, and the method name selects one handler.
    A name outside the table is ignored (no handler runs, no reply). The
    handlers themselves run as goroutines; here routing is only the choice
    of handler. */
module Routing {

  import opened GameTypes

  /** The eleven request handlers of the server. */
  datatype Handler =
    | RegisterRequest
    | LoginRequest
    | GetUsernameRequest
    | EnterGameRequest
    | GetQuestionRequest
    | SaveAnswerRequest
    | GetDuelRequest
    | SaveVoteRequest
    | GetDuelResultRequest
    | GetRoundResultRequest
    | GetGameResultRequest

  /** The method name a client sends to reach a handler. */
  function MethodName(h: Handler): (name: string)
  {
    match h
    case RegisterRequest => "register"
    case LoginRequest => "login"
    case GetUsernameRequest => "getusername"
    case EnterGameRequest => "entergame"
    case GetQuestionRequest => "getquestion"
    case SaveAnswerRequest => "saveanswer"
    case GetDuelRequest => "getduel"
    case SaveVoteRequest => "savevote"
    case GetDuelResultRequest => "getduelresult"
    case GetRoundResultRequest => "getroundresult"
    case GetGameResultRequest => "getgameresult"
  }

  /** The switch of newClient: the handler a method name selects, if any. */
  function Route(name: string): (h: Option<Handler>)
    ensures h.Some? ==> MethodName(h.value) == name
  {
    if name == "register" then Some(RegisterRequest)
    else if name == "login" then Some(LoginRequest)
    else if name == "getusername" then Some(GetUsernameRequest)
    else if name == "entergame" then Some(EnterGameRequest)
    else if name == "getquestion" then Some(GetQuestionRequest)
    else if name == "saveanswer" then Some(SaveAnswerRequest)
    else if name == "getduel" then Some(GetDuelRequest)
    else if name == "savevote" then Some(SaveVoteRequest)
    else if name == "getduelresult" then Some(GetDuelResultRequest)
    else if name == "getroundresult" then Some(GetRoundResultRequest)
    else if name == "getgameresult" then Some(GetGameResultRequest)
    else None
  }

  /** Every handler is reached by its own method name. */
  lemma RouteReachesEveryHandler(h: Handler)
    ensures Route(MethodName(h)) == Some(h)
  {
  }

  /** A method name is ignored exactly when it names no handler. */
  lemma RouteIgnoresUnknown(name: string)
    ensures Route(name).None? <==> forall h: Handler :: MethodName(h) != name
  {
    if Route(name).None? {
      forall h: Handler
        ensures MethodName(h) != name
      {
        RouteReachesEveryHandler(h);
      }
    }
  }

  /** No two handlers share a method name. */
  lemma MethodNamesDistinct(h1: Handler, h2: Handler)
    ensures MethodName(h1) == MethodName(h2) ==> h1 == h2
  {
    RouteReachesEveryHandler(h1);
    RouteReachesEveryHandler(h2);
  }
}
