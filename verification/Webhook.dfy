/** The webhook's handler: from an HTTP request to an admission review, or to a refusal. */
module Webhook {
  import opened Wrappers
  import opened Validators

  /** An admission request as it comes out of JSON. */
  datatype AdmissionRequest = AdmissionRequest(
    uid: string,
    kind: Kind,
    resource: Resource,
    subresource: string,
    name: string,
    namespace: string,
    operation: string,
    user: User,
    objectRaw: string,
    oldObjectRaw: string)

  datatype HttpRequest = HttpRequest(contentType: string, body: string)

  /** The decoder reports what kind it found as well as what went wrong. */
  datatype Decoded = Decoded(object_: Object, kind: Option<Kind>, error: Option<DecodeError>)

  datatype DecodeError = DecodeError(message: string, notRegistered: bool)

  /** JSON and the decoder. */
  datatype Codec = Codec(
    review: string -> Result<Option<AdmissionRequest>, string>,
    decode: string -> Decoded,
    unstructured: string -> Result<string, string>,
    marshalError: Review -> Option<string>)

  /** An AdmissionReview with its response. */
  datatype Review = Review(
    apiVersion: string,
    kind: string,
    uid: string,
    allowed: bool,
    code: int,
    reason: string,
    message: string)

  datatype Refusal =
    | WrongContentType(got: string)
    | EmptyBody
    | BadReview(message: string)
    | NoRequest
    | UnexpectedKind(found: Option<Kind>, expected: Kind)
    | Undecodable(message: string)
    | NotUnstructured(message: string)
    | NotMarshalled(message: string)

  datatype HttpResponse =
    | Refused(status: int, refusal: Refusal)
    | Reviewed(review: Review)

  const ACCEPTED := 202
  const BAD_REQUEST := 400
  const FORBIDDEN := 403
  const INTERNAL_ERROR := 500

  // ---------------------------------------------------------------------------------------
  // Reading the request
  // ---------------------------------------------------------------------------------------

  function ParseRequest(req: HttpRequest, c: Codec): Result<AdmissionRequest, Refusal> {
    if req.contentType != "application/json" then Err(WrongContentType(req.contentType))
    else if req.body == "" then Err(EmptyBody)
    else
      match c.review(req.body)
      case Err(message) => Err(BadReview(message))
      case Ok(None) => Err(NoRequest)
      case Ok(Some(request)) => Ok(request)
  }

  /** What is wrong with a request, each by itself. */
  predicate Applies(refusal: Refusal, req: HttpRequest, c: Codec) {
    match refusal
    case WrongContentType(got) => got == req.contentType && got != "application/json"
    case EmptyBody => req.body == ""
    case BadReview(message) => c.review(req.body) == Err(message)
    case NoRequest => c.review(req.body) == Ok(None)
    case _ => false
  }

  /** Which of several things wrong is answered. */
  function Rank(refusal: Refusal): nat {
    match refusal
    case WrongContentType(_) => 0
    case EmptyBody => 1
    case _ => 2
  }

  /** A request is read if and only if nothing is wrong with it, as what its body says; otherwise the
      refusal is the first of what is wrong, and there is no other such. */
  lemma ParseExactly(req: HttpRequest, c: Codec)
    ensures ParseRequest(req, c).Ok? <==> forall refusal :: !Applies(refusal, req, c)
    ensures forall r :: ParseRequest(req, c) == Ok(r) ==> c.review(req.body) == Ok(Some(r))
    ensures forall refusal :: ParseRequest(req, c) == Err(refusal) <==>
      && Applies(refusal, req, c)
      && (forall other | other != refusal && Applies(other, req, c) :: Rank(refusal) < Rank(other))
  {
    var parsed := ParseRequest(req, c);
    assert parsed.Err? ==> Applies(parsed.error, req, c);
    assert Applies(WrongContentType(req.contentType), req, c) <==> req.contentType != "application/json";
    assert Applies(EmptyBody, req, c) <==> req.body == "";
    assert Applies(NoRequest, req, c) <==> c.review(req.body) == Ok(None);
    assert c.review(req.body).Err? ==> Applies(BadReview(c.review(req.body).error), req, c);
  }

  /** An object of the request, none if there is no raw object. */
  function Load(raw: string, kind: Kind, c: Codec): Result<Option<Object>, HttpResponse> {
    if raw == "" then Ok(None)
    else
      var d := c.decode(raw);
      if d.kind != Some(kind) then Err(Refused(BAD_REQUEST, UnexpectedKind(d.kind, kind)))
      else
        match d.error
        case None => Ok(Some(d.object_))
        case Some(e) =>
          if !e.notRegistered then Err(Refused(BAD_REQUEST, Undecodable(e.message)))
          else
            match c.unstructured(raw)
            case Err(message) => Err(Refused(INTERNAL_ERROR, NotUnstructured(message)))
            case Ok(content) => Ok(Some(Unstructured(content)))
  }

  /** Empty values become nil. */
  function Converted(values: Slice): Slice {
    if values == Items([]) then Nil else values
  }

  function ConvertedExtra(extra: Option<map<string, Slice>>): Option<map<string, Slice>> {
    match extra
    case None => None
    case Some(m) => Some(map k | k in m :: Converted(m[k]))
  }

  function AttributesOf(r: AdmissionRequest, object_: Option<Object>, oldObject: Option<Object>): Attributes {
    Attributes(object_, oldObject, r.kind, r.namespace, r.name, r.resource, r.subresource, r.operation,
               r.user.(extra := ConvertedExtra(r.user.extra)))
  }

  // ---------------------------------------------------------------------------------------
  // Writing the answer
  // ---------------------------------------------------------------------------------------

  /** Depth-first, the first status error among an error and those it wraps. */
  function AsStatusError(e: Error): (found: Option<Error>)
    ensures found.Some? ==> found.value.StatusError?
    decreases e
  {
    if e.StatusError? then Some(e) else FirstStatusError(e.causes)
  }

  function FirstStatusError(es: seq<Error>): (found: Option<Error>)
    ensures found.Some? ==> found.value.StatusError?
    decreases es
  {
    if es == [] then None
    else
      var first := AsStatusError(es[0]);
      if first.Some? then first else FirstStatusError(es[1..])
  }

  function ReviewOf(uid: string, err: Option<Error>): Review {
    var status := if err.None? then None else AsStatusError(err.value);
    match status
    case Some(e) => Review("admission.k8s.io/v1", "AdmissionReview", uid, false, e.code, e.reason, e.message)
    case None =>
      if err.None? then Review("admission.k8s.io/v1", "AdmissionReview", uid, true, ACCEPTED, "", "valid")
      else Review("admission.k8s.io/v1", "AdmissionReview", uid, false, FORBIDDEN, "", err.value.message)
  }

  function Answered(uid: string, err: Option<Error>, c: Codec): HttpResponse {
    var review := ReviewOf(uid, err);
    match c.marshalError(review)
    case Some(message) => Refused(INTERNAL_ERROR, NotMarshalled(message))
    case None => Reviewed(review)
  }

  // ---------------------------------------------------------------------------------------
  // The decision
  // ---------------------------------------------------------------------------------------

  datatype Served = Served(response: HttpResponse, history: seq<Call>)

  function Serve(req: HttpRequest, v: Validator, c: Codec, h: seq<Call>, o: Outside): Served {
    match ParseRequest(req, c)
    case Err(refusal) => Served(Refused(BAD_REQUEST, refusal), h)
    case Ok(r) =>
      if !Handles(v, r.operation, h, o) then Served(Answered(r.uid, None, c), h)
      else
        match Load(r.oldObjectRaw, r.kind, c)
        case Err(response) => Served(response, h)
        case Ok(oldObject) =>
          match Load(r.objectRaw, r.kind, c)
          case Err(response) => Served(response, h)
          case Ok(object_) =>
            var out := Validate(v, AttributesOf(r, object_, oldObject), h, o);
            Served(Answered(r.uid, out.error, c), out.history)
  }

  // ---------------------------------------------------------------------------------------
  // What an answer means
  // ---------------------------------------------------------------------------------------

  /** A raw object can be read as an object of the request's kind. */
  predicate Readable(raw: string, kind: Kind, c: Codec) {
    raw != "" ==>
      && c.decode(raw).kind == Some(kind)
      && (c.decode(raw).error == None || (c.decode(raw).error.value.notRegistered && c.unstructured(raw).Ok?))
  }

  /** Both objects of a request, where there are any. */
  predicate BothReadable(r: AdmissionRequest, c: Codec) {
    Readable(r.oldObjectRaw, r.kind, c) && Readable(r.objectRaw, r.kind, c)
  }

  /** What the handler can review. */
  predicate Reviewable(req: HttpRequest, v: Validator, c: Codec, h: seq<Call>, o: Outside) {
    && ParseRequest(req, c).Ok?
    && (Handles(v, ParseRequest(req, c).value.operation, h, o) ==> BothReadable(ParseRequest(req, c).value, c))
  }

  ghost predicate Writable(c: Codec) {
    forall review :: c.marshalError(review) == None
  }

  lemma LoadExactly(raw: string, kind: Kind, c: Codec)
    ensures Load(raw, kind, c).Ok? <==> Readable(raw, kind, c)
    ensures Load(raw, kind, c).Ok? ==> (Load(raw, kind, c).value == None <==> raw == "")
    ensures Load(raw, kind, c).Err? ==>
      && Load(raw, kind, c).error.Refused?
      && (Load(raw, kind, c).error.status == INTERNAL_ERROR <==>
          (&& c.decode(raw).kind == Some(kind)
           && c.decode(raw).error.Some? && c.decode(raw).error.value.notRegistered))
  {
  }

  /** Nothing is validated but requests whose objects are all of the request's kind. */
  lemma ValidatedWasReadable(req: HttpRequest, v: Validator, c: Codec, h: seq<Call>, o: Outside)
    requires Serve(req, v, c, h, o).history != h
    ensures ParseRequest(req, c).Ok?
    ensures BothReadable(ParseRequest(req, c).value, c) && Handles(v, ParseRequest(req, c).value.operation, h, o)
  {
    if ParseRequest(req, c).Ok? {
      var r := ParseRequest(req, c).value;
      LoadExactly(r.oldObjectRaw, r.kind, c);
      LoadExactly(r.objectRaw, r.kind, c);
    }
  }

  /** A review is the answer to exactly the reviewable requests; everything else is refused without a
      call. */
  lemma ReviewedExactly(req: HttpRequest, v: Validator, c: Codec, h: seq<Call>, o: Outside)
    requires Writable(c)
    ensures Serve(req, v, c, h, o).response.Reviewed? <==> Reviewable(req, v, c, h, o)
    ensures Serve(req, v, c, h, o).response.Refused? ==> Serve(req, v, c, h, o).history == h
    ensures Reviewable(req, v, c, h, o) ==>
      Serve(req, v, c, h, o).response.review.uid == ParseRequest(req, c).value.uid
  {
    if ParseRequest(req, c).Ok? {
      var r := ParseRequest(req, c).value;
      LoadExactly(r.oldObjectRaw, r.kind, c);
      LoadExactly(r.objectRaw, r.kind, c);
    }
  }

  /** What the objects of a reviewable request are read as. */
  function RequestAttributes(r: AdmissionRequest, c: Codec): Attributes
    requires BothReadable(r, c)
  {
    LoadExactly(r.oldObjectRaw, r.kind, c);
    LoadExactly(r.objectRaw, r.kind, c);
    AttributesOf(r, Load(r.objectRaw, r.kind, c).value, Load(r.oldObjectRaw, r.kind, c).value)
  }

  lemma ServeReviewable(req: HttpRequest, v: Validator, c: Codec, h: seq<Call>, o: Outside)
    requires Writable(c) && Reviewable(req, v, c, h, o)
    ensures var r := ParseRequest(req, c).value;
      Serve(req, v, c, h, o) ==
        if Handles(v, r.operation, h, o) then
          (var out := Validate(v, RequestAttributes(r, c), h, o);
           Served(Reviewed(ReviewOf(r.uid, out.error)), out.history))
        else Served(Reviewed(ReviewOf(r.uid, None)), h)
  {
    var r := ParseRequest(req, c).value;
    LoadExactly(r.oldObjectRaw, r.kind, c);
    LoadExactly(r.objectRaw, r.kind, c);
  }

  /** A request is allowed exactly if every validator in the composition that handles the operation
      passes it. If none does, it is allowed without a call. */
  lemma AllowedExactly(req: HttpRequest, vs: seq<Validator>, c: Codec, h: seq<Call>, o: Outside)
    requires Steady(o) && Writable(c) && Reviewable(req, NewMulti(vs), c, h, o)
    ensures Serve(req, NewMulti(vs), c, h, o).response.Reviewed?
    ensures var r := ParseRequest(req, c).value;
      !Handles(NewMulti(vs), r.operation, h, o) ==>
        (Serve(req, NewMulti(vs), c, h, o).response.review.allowed && Serve(req, NewMulti(vs), c, h, o).history == h)
    ensures var r := ParseRequest(req, c).value;
      Handles(NewMulti(vs), r.operation, h, o) ==>
        (Serve(req, NewMulti(vs), c, h, o).response.review.allowed <==>
          forall v | v in PartsOf(vs) && Handles(v, r.operation, [], o) ::
            Validate(v, RequestAttributes(r, c), [], o).error == None)
  {
    var r := ParseRequest(req, c).value;
    ServeReviewable(req, NewMulti(vs), c, h, o);
    if Handles(NewMulti(vs), r.operation, h, o) {
      PassesExactly(vs, RequestAttributes(r, c), h, o);
    }
  }

  /** The calls behind a review: an allowed request passed every one of them; a denied one failed in the
      last, or met a plugin that was not ready. */
  lemma ReviewIsExplained(req: HttpRequest, v: Validator, c: Codec, h: seq<Call>, o: Outside)
    requires Writable(c) && Reviewable(req, v, c, h, o) && Handles(v, ParseRequest(req, c).value.operation, h, o)
    ensures var r := ParseRequest(req, c).value;
      exists error ::
        && Serve(req, v, c, h, o).response == Reviewed(ReviewOf(r.uid, error))
        && Explained(h, Outcome(error, Serve(req, v, c, h, o).history), RequestAttributes(r, c), o)
  {
    var r := ParseRequest(req, c).value;
    var a := RequestAttributes(r, c);
    ServeReviewable(req, v, c, h, o);
    ValidateIsExplained(v, a, h, o);
    var out := Validate(v, a, h, o);
    assert Explained(h, Outcome(out.error, out.history), a, o);
  }

  /** Requests about policies and bindings are allowed, whether the plugin is ready or not, and without
      asking it. */
  lemma PolicyRequestsAreAllowed(req: HttpRequest, evaluator: nat, c: Codec, h: seq<Call>, o: Outside)
    requires Writable(c) && ParseRequest(req, c).Ok? && BothReadable(ParseRequest(req, c).value, c)
    requires IsPolicyResource(ParseRequest(req, c).value.resource)
    ensures var r := ParseRequest(req, c).value;
      Serve(req, NewMulti([Plugin(evaluator)]), c, h, o) == Served(Reviewed(ReviewOf(r.uid, None)), h)
  {
    var r := ParseRequest(req, c).value;
    var v := Plugin(evaluator);
    ServeReviewable(req, NewMulti([v]), c, h, o);
    OneAlone(v, RequestAttributes(r, c), h, o);
  }

  /** All other requests are denied as forbidden until the plugin is ready, and left to it from then on. */
  lemma OthersWaitForThePlugin(req: HttpRequest, evaluator: nat, c: Codec, h: seq<Call>, o: Outside)
    requires Writable(c) && ParseRequest(req, c).Ok? && BothReadable(ParseRequest(req, c).value, c)
    requires !IsPolicyResource(ParseRequest(req, c).value.resource)
    ensures var r := ParseRequest(req, c).value;
      var a := RequestAttributes(r, c);
      var served := Serve(req, NewMulti([Plugin(evaluator)]), c, h, o);
      if true in o.polls(evaluator, h) then
        served == Served(Reviewed(ReviewOf(r.uid, o.validate(evaluator, a, h))), h + [Call(evaluator, a)])
      else
        (&& served.history == h && served.response.Reviewed? && !served.response.review.allowed
         && served.response.review.code == FORBIDDEN && served.response.review.message == o.forbidden(a))
  {
    var r := ParseRequest(req, c).value;
    var a := RequestAttributes(r, c);
    var v := Plugin(evaluator);
    ServeReviewable(req, NewMulti([v]), c, h, o);
    OneAlone(v, a, h, o);
  }

  /** Exactly requests about the resources of policies and bindings bypass the plugin: they alone are answered without a call when it is
      ready, and they alone are not forbidden when it is not. */
  lemma BypassExactly(req: HttpRequest, evaluator: nat, c: Codec, h: seq<Call>, o: Outside)
    requires Writable(c) && ParseRequest(req, c).Ok? && BothReadable(ParseRequest(req, c).value, c)
    ensures
      var served, x := Serve(req, NewMulti([Plugin(evaluator)]), c, h, o), ParseRequest(req, c).value.resource;
      var exempt :=
        || (x.group == "admissionregistration.k8s.io" && x.resource == "validatingadmissionpolicies")
        || (x.group == "admissionregistration.k8s.io" && x.resource == "validatingadmissionpolicybindings")
        || (x.group == "admissionregistration.x-k8s.io" && x.resource == "validatingadmissionpolicies")
        || (x.group == "admissionregistration.x-k8s.io" && x.resource == "validatingadmissionpolicybindings");
      && served.response.Reviewed?
      && (true in o.polls(evaluator, h) ==> (served.history == h <==> exempt))
      && (true !in o.polls(evaluator, h) ==> served.history == h && (!served.response.review.allowed <==> !exempt))
  {
    var r := ParseRequest(req, c).value;
    PolicyResourcesExactly(r.resource);
    if IsPolicyResource(r.resource) {
      PolicyRequestsAreAllowed(req, evaluator, c, h, o);
      ReviewShows(r.uid, None);
    } else {
      OthersWaitForThePlugin(req, evaluator, c, h, o);
      assert |h + [Call(evaluator, RequestAttributes(r, c))]| == |h| + 1;
    }
  }

  /** Other resources of the native group are evaluated like any other. */
  lemma WebhookConfigurationsAreEvaluated(req: HttpRequest, evaluator: nat, c: Codec, h: seq<Call>, o: Outside)
    requires Writable(c) && ParseRequest(req, c).Ok? && BothReadable(ParseRequest(req, c).value, c)
    requires ParseRequest(req, c).value.resource == Resource("admissionregistration.k8s.io", "v1", "mutatingwebhookconfigurations")
    requires true in o.polls(evaluator, h)
    ensures
      var history := Serve(req, NewMulti([Plugin(evaluator)]), c, h, o).history;
      |history| == |h| + 1 && history[|h|].id == evaluator
  {
    var r := ParseRequest(req, c).value;
    PolicyResourcesExactly(r.resource);
    assert |r.resource.resource| == 29 && |"validatingadmissionpolicies"| == 27 && |"validatingadmissionpolicybindings"| == 33;
    OthersWaitForThePlugin(req, evaluator, c, h, o);
  }

  /** Every call that a request leads to is about that request: its name, namespace and so on, the objects that
      it came with, the new one as the new one and the old one as the old one, and its user. */
  lemma CallsAreAboutTheRequest(req: HttpRequest, v: Validator, c: Codec, h: seq<Call>, o: Outside, k: nat)
    requires Writable(c) && |h| <= k < |Serve(req, v, c, h, o).history|
    ensures ParseRequest(req, c).Ok?
    ensures
      var r, a := ParseRequest(req, c).value, Serve(req, v, c, h, o).history[k].attributes;
      && a.name == r.name && a.namespace == r.namespace && a.kind == r.kind && a.resource == r.resource
      && a.subresource == r.subresource && a.operation == r.operation
      && a.user.name == r.user.name && a.user.uid == r.user.uid && a.user.groups == r.user.groups
      && IsReadAs(a.object_, r.objectRaw, c) && IsReadAs(a.oldObject, r.oldObjectRaw, c)
    ensures
      var r, a := ParseRequest(req, c).value, Serve(req, v, c, h, o).history[k].attributes;
      && (a.user.extra == None <==> r.user.extra == None)
      && (r.user.extra != None ==>
            && a.user.extra.value.Keys == r.user.extra.value.Keys
            && forall key | key in r.user.extra.value ::
                 a.user.extra.value[key] == if r.user.extra.value[key] == Items([]) then Nil else r.user.extra.value[key])
  {
    hide Validate, Explained;
    var history := Serve(req, v, c, h, o).history;
    assert history != h;
    ValidatedWasReadable(req, v, c, h, o);
    var r := ParseRequest(req, c).value;
    var a := RequestAttributes(r, c);
    LoadExactly(r.oldObjectRaw, r.kind, c);
    LoadExactly(r.objectRaw, r.kind, c);
    ServeReviewable(req, v, c, h, o);
    ValidateIsExplained(v, a, h, o);
    ExplainedAttributes(h, Validate(v, a, h, o), a, o, k);
  }

  /** None for no raw object; the decoded object, or the content kept as it came if its type is unknown. */
  predicate IsReadAs(object_: Option<Object>, raw: string, c: Codec) {
    && (raw == "" ==> object_ == None)
    && (raw != "" && c.decode(raw).error == None ==> object_ == Some(c.decode(raw).object_))
    && (raw != "" && c.decode(raw).error != None ==>
          c.unstructured(raw).Ok? && object_ == Some(Unstructured(c.unstructured(raw).value)))
  }

  lemma ExplainedAttributes(h: seq<Call>, out: Outcome, a: Attributes, o: Outside, k: nat)
    requires Explained(h, out, a, o) && |h| <= k < |out.history|
    ensures out.history[k].attributes == a
  {
    var front := out.history[..|out.history| - 1];
    if !Passed(h, out.history, a, o) && k < |front| {
      assert out.history[k] == front[k];
    }
  }

  // ---------------------------------------------------------------------------------------
  // How requests are refused
  // ---------------------------------------------------------------------------------------

  /** What is answered to a request that cannot be read, with no call. */
  lemma UnreadIsRefused(req: HttpRequest, v: Validator, c: Codec, h: seq<Call>, o: Outside)
    requires ParseRequest(req, c).Err?
    ensures Serve(req, v, c, h, o) == Served(Refused(400, ParseRequest(req, c).error), h)
  {
  }

  /** What is wrong with a raw object: its kind first, then what the decoder says, unless that is that the type
      is not registered, and then what keeping it as it came says. */
  lemma LoadRefusals(raw: string, kind: Kind, c: Codec)
    requires raw != ""
    ensures
      var d, loaded := c.decode(raw), Load(raw, kind, c);
      && (d.kind != Some(kind) ==> loaded == Err(Refused(400, UnexpectedKind(d.kind, kind))))
      && (d.kind == Some(kind) && d.error.Some? && !d.error.value.notRegistered ==>
            loaded == Err(Refused(400, Undecodable(d.error.value.message))))
      && (d.kind == Some(kind) && d.error.Some? && d.error.value.notRegistered && c.unstructured(raw).Err? ==>
            loaded == Err(Refused(500, NotUnstructured(c.unstructured(raw).error))))
  {
  }

  /** The old object is looked at first; whatever is wrong with either is answered, with no call. */
  lemma UnreadableIsRefused(req: HttpRequest, v: Validator, c: Codec, h: seq<Call>, o: Outside)
    requires ParseRequest(req, c).Ok? && Handles(v, ParseRequest(req, c).value.operation, h, o)
    requires !BothReadable(ParseRequest(req, c).value, c)
    ensures
      var r, served := ParseRequest(req, c).value, Serve(req, v, c, h, o);
      && served.history == h
      && (!Readable(r.oldObjectRaw, r.kind, c) ==> Load(r.oldObjectRaw, r.kind, c) == Err(served.response))
      && (Readable(r.oldObjectRaw, r.kind, c) ==> Load(r.objectRaw, r.kind, c) == Err(served.response))
  {
    var r := ParseRequest(req, c).value;
    LoadExactly(r.oldObjectRaw, r.kind, c);
    LoadExactly(r.objectRaw, r.kind, c);
  }

  /** A review that cannot be written is an internal error. */
  lemma UnwritableIsRefused(req: HttpRequest, v: Validator, c: Codec, h: seq<Call>, o: Outside, message: string)
    requires Reviewable(req, v, c, h, o) && forall review :: c.marshalError(review) == Some(message)
    ensures Serve(req, v, c, h, o).response == Refused(500, NotMarshalled(message))
  {
    var r := ParseRequest(req, c).value;
    LoadExactly(r.oldObjectRaw, r.kind, c);
    LoadExactly(r.objectRaw, r.kind, c);
  }

  // ---------------------------------------------------------------------------------------
  // Which error is shown
  // ---------------------------------------------------------------------------------------

  /** An error and all that it wraps, each before what it wraps. */
  function Chain(e: Error): seq<Error>
    decreases e
  {
    [e] + if e.StatusError? then [] else Chains(e.causes)
  }

  function Chains(es: seq<Error>): seq<Error>
    decreases es
  {
    if es == [] then [] else Chain(es[0]) + Chains(es[1..])
  }

  ghost predicate IsFirstStatus(found: Option<Error>, es: seq<Error>) {
    match found
    case None => forall e | e in es :: !e.StatusError?
    case Some(s) => s.StatusError? && exists k | 0 <= k < |es| ::
      es[k] == s && forall i | 0 <= i < k :: !es[i].StatusError?
  }

  lemma FirstOfBoth(found: Option<Error>, xs: seq<Error>, later: Option<Error>, ys: seq<Error>)
    requires IsFirstStatus(found, xs) && IsFirstStatus(later, ys)
    ensures IsFirstStatus(if found.Some? then found else later, xs + ys)
  {
    if found.Some? {
      var k :| 0 <= k < |xs| && xs[k] == found.value && forall i | 0 <= i < k :: !xs[i].StatusError?;
      assert (xs + ys)[k] == found.value;
      assert forall i | 0 <= i < k :: (xs + ys)[i] == xs[i];
    } else if later.Some? {
      var k :| 0 <= k < |ys| && ys[k] == later.value && forall i | 0 <= i < k :: !ys[i].StatusError?;
      assert (xs + ys)[|xs| + k] == later.value;
      assert forall i | 0 <= i < |xs| + k :: (xs + ys)[i] == if i < |xs| then xs[i] else ys[i - |xs|];
    }
  }

  lemma {:induction false} AsFindsTheFirst(e: Error)
    ensures IsFirstStatus(AsStatusError(e), Chain(e))
    decreases e
  {
    if e.StatusError? {
      assert Chain(e)[0] == e;
    } else {
      FirstFindsTheFirst(e.causes);
      FirstOfBoth(None, [e], FirstStatusError(e.causes), Chains(e.causes));
    }
  }

  lemma {:induction false} FirstFindsTheFirst(es: seq<Error>)
    ensures IsFirstStatus(FirstStatusError(es), Chains(es))
    decreases es
  {
    if es != [] {
      AsFindsTheFirst(es[0]);
      FirstFindsTheFirst(es[1..]);
      FirstOfBoth(AsStatusError(es[0]), Chain(es[0]), FirstStatusError(es[1..]), Chains(es[1..]));
    }
  }

  /** A review allows exactly if there is no error; otherwise it shows the first status error in the
      chain, or forbids with the error's own message. */
  lemma ReviewShows(uid: string, err: Option<Error>)
    ensures var review := ReviewOf(uid, err);
      && review.apiVersion == "admission.k8s.io/v1" && review.kind == "AdmissionReview"
      && review.uid == uid && (review.allowed <==> err == None)
      && (err == None ==> review.code == 202 && review.reason == "" && review.message == "valid")
      && (err != None ==>
          || (&& IsFirstStatus(Some(StatusError(review.code, review.reason, review.message)), Chain(err.value)))
          || (&& IsFirstStatus(None, Chain(err.value))
              && review.code == 403 && review.reason == "" && review.message == err.value.message))
  {
    if err != None {
      AsFindsTheFirst(err.value);
    }
  }

  // ---------------------------------------------------------------------------------------
  // The handler
  // ---------------------------------------------------------------------------------------

  class ResponseWriter {
    var sent: seq<HttpResponse>

    constructor ()
      ensures sent == []
    {
      sent := [];
    }

    method Send(response: HttpResponse)
      modifies this
      ensures sent == old(sent) + [response]
    {
      sent := sent + [response];
    }
  }

  method ParseRequestBody(req: HttpRequest, codec: Codec) returns (parsed: Result<AdmissionRequest, Refusal>)
    ensures parsed == ParseRequest(req, codec)
  {
    if req.contentType != "application/json" {
      return Err(WrongContentType(req.contentType));
    }
    if |req.body| == 0 {
      return Err(EmptyBody);
    }
    var review := codec.review(req.body);
    if review.Err? {
      return Err(BadReview(review.error));
    }
    if review.value == None {
      return Err(NoRequest);
    }
    parsed := Ok(review.value.value);
  }

  method ReviewResponse(uid: string, err: Option<Error>) returns (review: Review)
    ensures review == ReviewOf(uid, err)
  {
    var allowed := err == None;
    var status := ACCEPTED;
    if err != None {
      status := FORBIDDEN;
    }
    var reason := "";
    var message := "valid";
    if err != None {
      message := err.value.message;
      var statusErr := AsStatusError(err.value);
      if statusErr != None {
        AsFindsTheFirst(err.value);
        reason := statusErr.value.reason;
        message := statusErr.value.message;
        status := statusErr.value.code;
      }
    }
    review := Review("admission.k8s.io/v1", "AdmissionReview", uid, allowed, status, reason, message);
  }

  /** `append` to a slice makes one where there was none. */
  function Append(s: Slice, x: string): Slice {
    if s == Nil then Items([x]) else Items(s.items + [x])
  }

  function Elements(s: Slice): seq<string> {
    if s == Nil then [] else s.items
  }

  method ConvertExtra(input: Option<map<string, Slice>>) returns (res: Option<map<string, Slice>>)
    ensures res == ConvertedExtra(input)
  {
    if input == None {
      return None;
    }
    var built: map<string, Slice> := map[];
    var left := input.value.Keys;
    while left != {}
      invariant left <= input.value.Keys && built.Keys == input.value.Keys - left
      invariant forall k | k in built :: built[k] == Converted(input.value[k])
    {
      var k :| k in left;
      var values := Elements(input.value[k]);
      var converted := Nil;
      for i := 0 to |values|
        invariant converted == if i == 0 then Nil else Items(values[..i])
      {
        converted := Append(converted, values[i]);
      }
      assert values[..|values|] == values;
      built := built[k := converted];
      left := left - {k};
    }
    res := Some(built);
    assert built == ConvertedExtra(input).value;
  }

  class Handler {
    const validator: Validator
    const codec: Codec

    constructor (validator: Validator, codec: Codec)
      ensures this.validator == validator && this.codec == codec
    {
      this.validator, this.codec := validator, codec;
    }

    method LoadObject(raw: string, kind: Kind) returns (loaded: Result<Option<Object>, HttpResponse>)
      ensures loaded == Load(raw, kind, codec)
    {
      var object_ := None;
      if |raw| > 0 {
        var d := codec.decode(raw);
        if d.kind == None || d.kind.value != kind {
          return Err(Refused(BAD_REQUEST, UnexpectedKind(d.kind, kind)));
        } else if d.error != None && d.error.value.notRegistered {
          var content := codec.unstructured(raw);
          if content.Err? {
            return Err(Refused(INTERNAL_ERROR, NotUnstructured(content.error)));
          }
          object_ := Some(Unstructured(content.value));
        } else if d.error != None {
          return Err(Refused(BAD_REQUEST, Undecodable(d.error.value.message)));
        } else {
          object_ := Some(d.object_);
        }
      }
      loaded := Ok(object_);
    }

    /** Every request gets exactly one answer. */
    method HandleWebhookValidate(w: ResponseWriter, req: HttpRequest, world: World)
      modifies w, world
      ensures var served := Serve(req, validator, codec, old(world.history), world.outside);
        w.sent == old(w.sent) + [served.response] && world.history == served.history
    {
      var parsed := ParseRequestBody(req, codec);
      if parsed.Err? {
        w.Send(Refused(BAD_REQUEST, parsed.error));
        return;
      }
      var r := parsed.value;
      var err := None;
      var handles := world.CallHandles(validator, r.operation);
      if handles {
        var oldObject := LoadObject(r.oldObjectRaw, r.kind);
        if oldObject.Err? {
          w.Send(oldObject.error);
          return;
        }
        var object_ := LoadObject(r.objectRaw, r.kind);
        if object_.Err? {
          w.Send(object_.error);
          return;
        }
        var extra := ConvertExtra(r.user.extra);
        var attrs := Attributes(object_.value, oldObject.value, r.kind, r.namespace, r.name, r.resource,
                                r.subresource, r.operation, r.user.(extra := extra));
        err := world.CallValidate(validator, attrs);
      }
      var response := ReviewResponse(r.uid, err);
      var marshalError := codec.marshalError(response);
      if marshalError != None {
        w.Send(Refused(INTERNAL_ERROR, NotMarshalled(marshalError.value)));
        return;
      }
      w.Send(Reviewed(response));
    }
  }
}
