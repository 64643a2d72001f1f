/** The dispatcher: from the full method name of a request to the service that answers it. */
module RpcDispatchers {
  import opened Bytes
  import opened ProtobufFrames

  const DOT: byte := 46

  const ERROR_FAILED_DESERIALIZE := 10000003
  const ERROR_SERVICE_NOT_FOUND := 10000008
  const ERROR_METHOD_NOT_FOUND := 10000009
  const ERROR_PARSE_SERVICE_NAME := 10000010

  /** The bytes of an ASCII text without NUL. */
  function Ascii(s: string): (r: Bytes)
    requires forall i :: 0 <= i < |s| ==> 0 < s[i] as int < 128
    ensures |r| == |s| && 0 !in r
  {
    seq(|s|, i requires 0 <= i < |s| => s[i] as int as byte)
  }

  /** A method of a service as the dispatcher uses it: ParseFromString on the request payload, then
      CallMethod and SerializeToString of the response, which may fail. */
  datatype Method = Method(parses: Bytes -> bool, answer: Bytes -> Option<Bytes>)

  datatype Service = Service(fullName: Bytes, methods: map<Bytes, Method>)

  type ServiceMap = map<Bytes, Service>

  /* ----- Splitting the full name ----- */

  /** find_first_of("."); the length of the name where there is none. */
  function FirstDot(name: Bytes): (k: nat)
    ensures k <= |name| && DOT !in name[..k]
    ensures k < |name| ==> name[k] == DOT
  {
    if name == [] || name[0] == DOT then 0
    else
      assert forall k :: 0 <= k < |name| ==> name[..k + 1] == [name[0]] + name[1..][..k];
      1 + FirstDot(name[1..])
  }

  datatype ServiceAndMethod = ServiceAndMethod(service: Bytes, methodName: Bytes)

  /** parse_service_full_name */
  function ParseServiceFullName(fullName: Bytes): Option<ServiceAndMethod> {
    if fullName == [] then None else
    var pos := FirstDot(fullName);
    if pos == |fullName| then None
    else Some(ServiceAndMethod(fullName[..pos], fullName[pos + 1..]))
  }

  /** The pair rebuilds the name, and the service part has no dot. */
  predicate Splits(fullName: Bytes, s: ServiceAndMethod) {
    fullName == s.service + [DOT] + s.methodName && DOT !in s.service
  }

  /** The parser finds the only way to split a name, and finds it exactly for names with a dot. */
  lemma ParsesTheOnlySplit(fullName: Bytes, s: ServiceAndMethod)
    ensures ParseServiceFullName(fullName) == Some(s) <==> Splits(fullName, s)
    ensures ParseServiceFullName(fullName) == None <==> DOT !in fullName
  {
    var pos := FirstDot(fullName);
    if pos < |fullName| {
      assert fullName == fullName[..pos] + [DOT] + fullName[pos + 1..];
    } else {
      assert fullName[..pos] == fullName;
    }
    if Splits(fullName, s) {
      var q := |s.service|;
      assert fullName[q] == DOT;
      assert forall i :: 0 <= i < q ==> fullName[i] == s.service[i];
      assert forall i :: 0 <= i < pos ==> fullName[i] == fullName[..pos][i];
      assert pos == q;
      assert fullName[..q] == s.service && fullName[q + 1..] == s.methodName;
    }
  }

  /* ----- Dispatching ----- */

  /** How far a request gets. */
  datatype Route = BadName | NoService | NoMethod | BadPayload | Served(target: ServiceAndMethod, answer: Option<Bytes>)

  function RouteOf(services: ServiceMap, request: Message): Route {
    match ParseServiceFullName(request.methodName)
    case None => BadName
    case Some(s) =>
      if s.service !in services then NoService else
      var methods := services[s.service].methods;
      if s.methodName !in methods then NoMethod else
      var m := methods[s.methodName];
      if !m.parses(request.pbData) then BadPayload
      else Served(s, m.answer(request.pbData))
  }

  /** The name, the service and the method exist, and the payload parses. */
  ghost predicate Reaches(services: ServiceMap, request: Message, s: ServiceAndMethod) {
    Splits(request.methodName, s)
    && s.service in services
    && s.methodName in services[s.service].methods
    && services[s.service].methods[s.methodName].parses(request.pbData)
  }

  /** A request runs the method of a service if and only if it reaches it. */
  lemma ServedIffReaches(services: ServiceMap, request: Message, s: ServiceAndMethod)
    ensures (RouteOf(services, request).Served? && RouteOf(services, request).target == s)
            <==> Reaches(services, request, s)
  {
    ParsesTheOnlySplit(request.methodName, s);
  }

  /** A service registered under a name with a package prefix is never reached. */
  lemma DottedServiceIsNeverReached(services: ServiceMap, request: Message)
    ensures RouteOf(services, request).Served? ==> DOT !in RouteOf(services, request).target.service
  {
    var r := RouteOf(services, request);
    if r.Served? {
      ParsesTheOnlySplit(request.methodName, r.target);
    }
  }

  /** Of the registered services with a method that accepts some payload, exactly those under a name
      without a dot can be reached by some request. */
  lemma ReachableIffDotFree(services: ServiceMap, name: Bytes, methodName: Bytes, payload: Bytes)
    requires name in services && methodName in services[name].methods
    requires services[name].methods[methodName].parses(payload)
    ensures (exists r: Message :: RouteOf(services, r).Served? && RouteOf(services, r).target.service == name)
            <==> DOT !in name
  {
    if DOT !in name {
      var r := RequestFor(name, methodName, payload);
      ServedIffReaches(services, r, ServiceAndMethod(name, methodName));
    } else {
      forall r: Message | RouteOf(services, r).Served?
        ensures RouteOf(services, r).target.service != name
      {
        DottedServiceIsNeverReached(services, r);
      }
    }
  }

  /** A request that names the service and the method, as a client writes it. */
  function RequestFor(name: Bytes, methodName: Bytes, payload: Bytes): Message {
    EMPTY.(methodName := name + [DOT] + methodName, pbData := payload)
  }

  /** Where a request for a service with a dot in its name goes instead: to the service named by
      what is in front of the first dot, with the rest as the method. */
  lemma DottedNameIsCutEarly(services: ServiceMap, name: Bytes, methodName: Bytes, payload: Bytes)
    requires DOT in name
    ensures var k, r := FirstDot(name), RequestFor(name, methodName, payload);
            && k < |name|
            && ParseServiceFullName(r.methodName)
               == Some(ServiceAndMethod(name[..k], name[k + 1..] + [DOT] + methodName))
            && (name[..k] !in services ==> RouteOf(services, r) == NoService
                                           && Reply(services, r).errCode == ERROR_SERVICE_NOT_FOUND)
  {
    hide ParseServiceFullName, FirstDot;
    var k := FirstDot(name);
    assert name[..|name|] == name;
    SplitEarly(name, k, methodName);
    ParsesTheOnlySplit(name + [DOT] + methodName, ServiceAndMethod(name[..k], name[k + 1..] + [DOT] + methodName));
  }

  lemma SplitEarly(name: Bytes, k: nat, methodName: Bytes)
    requires k < |name| && name[k] == DOT
    ensures name + [DOT] + methodName == name[..k] + [DOT] + (name[k + 1..] + [DOT] + methodName)
  {
    assert name == name[..k] + [DOT] + name[k + 1..];
  }

  /** For instance: the only service is registered as pkg.Order and has the method make, and the
      request pkg.Order.make is answered with "service not found". */
  lemma PackagedServiceIsNotFound(make: Method, payload: Bytes)
    ensures var name, methodName := Ascii("pkg.Order"), Ascii("make");
            var services := RegisterAll(map[], [Service(name, map[methodName := make])]);
            && name in services && methodName in services[name].methods
            && Reply(services, RequestFor(name, methodName, payload)).errCode == ERROR_SERVICE_NOT_FOUND
  {
    var name, methodName := Ascii("pkg.Order"), Ascii("make");
    var list := [Service(name, map[methodName := make])];
    assert list[..0] == [];
    assert RegisterAll(map[], list) == map[name := list[0]];
    assert name[3] == DOT;
    DottedNameIsCutEarly(RegisterAll(map[], list), name, methodName, payload);
    assert |name[..FirstDot(name)]| < |name|;
  }

  const EMPTY: Message := Message([], [], 0, [], [], 0, 0, 0, 0, 0, false)

  function ErrorCode(r: Route): int {
    match r
    case BadName => ERROR_PARSE_SERVICE_NAME
    case NoService => ERROR_SERVICE_NOT_FOUND
    case NoMethod => ERROR_METHOD_NOT_FOUND
    case BadPayload => ERROR_FAILED_DESERIALIZE
    case Served(_, answer) => if answer.Some? then 0 else ERROR_SERVICE_NOT_FOUND
  }

  function ErrorInfo(r: Route): (info: Bytes)
    ensures |info| <= 511 && 0 !in info
  {
    match r
    case BadName => Ascii("parse service name error")
    case NoService => Ascii("service not found")
    case NoMethod => Ascii("method not found")
    case BadPayload => Ascii("serialize error")
    case Served(_, answer) => if answer.Some? then [] else Ascii("serilize error")
  }

  /** The reply to a request: its id and method name, and the error of the first failing stage. */
  function Reply(services: ServiceMap, request: Message): (reply: Message)
    ensures reply.msgId == request.msgId && reply.methodName == request.methodName
  {
    var r := RouteOf(services, request);
    EMPTY.(msgId := request.msgId, methodName := request.methodName,
           errCode := ErrorCode(r), errInfo := ErrorInfo(r), errInfoLen := |ErrorInfo(r)|,
           pbData := if r.Served? && r.answer.Some? then r.answer.value else [])
  }

  /** What a request has to be answered with: the error of the first stage that fails, or what its
      method makes of its payload. A failed serialisation shares its code with an unknown service. */
  ghost predicate Answered(services: ServiceMap, request: Message, code: int, info: Bytes, data: Bytes) {
    && (DOT !in request.methodName ==> code == 10000010 && info == Ascii("parse service name error") && data == [])
    && forall s :: Splits(request.methodName, s) ==>
         if s.service !in services then
           code == 10000008 && info == Ascii("service not found") && data == []
         else if s.methodName !in services[s.service].methods then
           code == 10000009 && info == Ascii("method not found") && data == []
         else if !services[s.service].methods[s.methodName].parses(request.pbData) then
           code == 10000003 && info == Ascii("serialize error") && data == []
         else
           match services[s.service].methods[s.methodName].answer(request.pbData)
           case Some(answer) => code == 0 && info == [] && data == answer
           case None => code == 10000008 && info == Ascii("serilize error") && data == []
  }

  /** Every reply is the right one. */
  lemma ReplyIsTheAnswer(services: ServiceMap, request: Message)
    ensures var r := Reply(services, request); Answered(services, request, r.errCode, r.errInfo, r.pbData)
  {
    hide ParseServiceFullName, Ascii;
    forall s ensures ParseServiceFullName(request.methodName) == Some(s) <==> Splits(request.methodName, s) {
      ParsesTheOnlySplit(request.methodName, s);
    }
    ParsesTheOnlySplit(request.methodName, ServiceAndMethod([], []));
  }

  /** A request that reaches a method gets the answer of that method to its own payload. */
  lemma ReachedMethodAnswers(services: ServiceMap, request: Message, s: ServiceAndMethod)
    requires Reaches(services, request, s)
    ensures var r, answer := Reply(services, request), services[s.service].methods[s.methodName].answer(request.pbData);
            if answer.Some? then r.errCode == 0 && r.pbData == answer.value else r.errCode == 10000008 && r.pbData == []
  {
    hide Reply;
    ReplyIsTheAnswer(services, request);
  }

  /** The error code names the stage that failed: 0 if and only if a method ran and its answer could
      be serialised, and the name, method and payload errors only for their own stage. */
  lemma ReplyErrorNamesStage(services: ServiceMap, request: Message)
    ensures var code := Reply(services, request).errCode;
            && (code == 10000010 <==> DOT !in request.methodName)
            && forall s :: Splits(request.methodName, s) ==>
                 && (code == 10000009 <==> s.service in services && s.methodName !in services[s.service].methods)
                 && (code == 10000003 <==>
                       && s.service in services && s.methodName in services[s.service].methods
                       && !services[s.service].methods[s.methodName].parses(request.pbData))
                 && (code == 0 <==>
                       && Reaches(services, request, s)
                       && services[s.service].methods[s.methodName].answer(request.pbData).Some?)
                 && (code == 10000008 <==>
                       || s.service !in services
                       || (Reaches(services, request, s)
                           && services[s.service].methods[s.methodName].answer(request.pbData).None?))
  {
    hide Reply, Ascii;
    ReplyIsTheAnswer(services, request);
    if DOT in request.methodName {
      var k :| 0 <= k < |request.methodName| && request.methodName[k] == DOT;
      ParsesTheOnlySplit(request.methodName, ServiceAndMethod([], []));
      var s := ParseServiceFullName(request.methodName).value;
      ParsesTheOnlySplit(request.methodName, s);
      assert Splits(request.methodName, s);
    }
  }

  /** A reply to a decoded request can itself be encoded and decoded. */
  lemma ReplyIsEncodable(services: ServiceMap, request: Message)
    requires Fits(request) && request.msgId != [] && PkLen(Reply(services, request)) <= INT_MAX
    ensures Encodable(Reply(services, request))
  {
  }

  /* ----- Registration ----- */

  function RegisterAll(services: ServiceMap, list: seq<Service>): ServiceMap
    decreases |list|
  {
    if list == [] then services
    else RegisterAll(services, list[..|list| - 1])[list[|list| - 1].fullName := list[|list| - 1]]
  }

  /** After any sequence of registrations a name stands for the service registered last under it. */
  lemma {:induction false} LastRegistrationWins(list: seq<Service>, k: nat)
    requires k < |list|
    requires forall j :: k < j < |list| ==> list[j].fullName != list[k].fullName
    ensures var services := RegisterAll(map[], list);
            list[k].fullName in services && services[list[k].fullName] == list[k]
    decreases |list|
  {
    if k < |list| - 1 {
      LastRegistrationWins(list[..|list| - 1], k);
    }
  }

  /** One run of a service method on behalf of a request. */
  datatype Invocation = Invocation(target: ServiceAndMethod, payload: Bytes)

  class RpcDispatcher {
    var services: ServiceMap

    constructor ()
      ensures services == map[]
    {
      services := map[];
    }

    method RegisterService(service: Service)
      modifies this
      ensures services == old(services)[service.fullName := service]
    {
      services := services[service.fullName := service];
    }

    /** dispatcher; ran is the method that was called, if any. */
    method Dispatch(request: Message) returns (response: Message, ran: Option<Invocation>)
      ensures response == Reply(services, request)
      ensures response.msgId == request.msgId && response.methodName == request.methodName
      ensures Answered(services, request, response.errCode, response.errInfo, response.pbData)
      ensures ran.Some? <==> exists s :: Reaches(services, request, s)
      ensures ran.Some? ==> Reaches(services, request, ran.value.target) && ran.value.payload == request.pbData
    {
      hide Answered, Ascii;
      forall s ensures (RouteOf(services, request).Served? && RouteOf(services, request).target == s)
                       <==> Reaches(services, request, s) {
        ServedIffReaches(services, request, s);
      }
      ReplyIsTheAnswer(services, request);
      response, ran := EMPTY, None;
      response := response.(msgId := request.msgId, methodName := request.methodName);
      var split := ParseServiceFullName(request.methodName);
      if split.None? {
        response := SetError(response, ERROR_PARSE_SERVICE_NAME, Ascii("parse service name error"));
        return;
      }
      if split.value.service !in services {
        response := SetError(response, ERROR_SERVICE_NOT_FOUND, Ascii("service not found"));
        return;
      }
      var service := services[split.value.service];
      if split.value.methodName !in service.methods {
        response := SetError(response, ERROR_METHOD_NOT_FOUND, Ascii("method not found"));
        return;
      }
      var m := service.methods[split.value.methodName];
      if !m.parses(request.pbData) {
        response := SetError(response, ERROR_FAILED_DESERIALIZE, Ascii("serialize error"));
        return;
      }
      ran := Some(Invocation(split.value, request.pbData));
      assert Reaches(services, request, split.value);
      var answer := m.answer(request.pbData);
      if answer.None? {
        response := SetError(response, ERROR_SERVICE_NOT_FOUND, Ascii("serilize error"));
        return;
      }
      response := response.(pbData := answer.value);
      response := response.(errCode := 0);
    }

    static function SetError(m: Message, code: int, info: Bytes): Message {
      m.(errCode := code, errInfoLen := |info|, errInfo := info)
    }
  }
}
