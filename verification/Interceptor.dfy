/** The proxy that lets clients of the native admission-policy group talk to the polyfill group:
    requests are rewritten from the native to the custom group, responses back. */
module Interceptor {
  import opened LineStream
  import opened Replacement

  const NATIVE := "admissionregistration.k8s.io/v1alpha1"
  const CUSTOM := "admissionregistration.x-k8s.io/v1alpha1"

  function ToCustom(s: string): string {
    ReplaceAll(s, NATIVE, CUSTOM)
  }

  function ToNative(s: string): string {
    ReplaceAll(s, CUSTOM, NATIVE)
  }

  // ---------------------------------------------------------------------------------------
  // The two group names
  // ---------------------------------------------------------------------------------------

  /** "ad" starts the word and occurs nowhere else in it. */
  ghost predicate StartsApart(w: string) {
    && |w| >= 2 && w[0] == 'a' && w[1] == 'd'
    && forall j | 1 <= j < |w| :: w[j] != 'a' || (j + 1 < |w| && w[j + 1] != 'd')
  }

  /** Such words meet each other, and themselves, at no offset but the front. */
  lemma ApartNoOverlay(w: string, v: string)
    requires StartsApart(w) && StartsApart(v)
    ensures NoOverlay(w, v, 1)
  {
    forall j | 1 <= j < |w| ensures !Overlay(w, v, j) {
      var i := if w[j] != 'a' then 0 else 1;
      assert w[j + i] != v[i];
    }
  }

  lemma NativeStartsApart()
    ensures StartsApart(NATIVE)
  {
  }

  lemma CustomStartsApart()
    ensures StartsApart(CUSTOM)
  {
  }

  lemma NamesDiffer()
    ensures !Overlay(NATIVE, CUSTOM, 0) && !Overlay(CUSTOM, NATIVE, 0)
  {
    assert NATIVE[0 + 22] != CUSTOM[22];
    assert CUSTOM[0 + 22] != NATIVE[22];
  }

  /** Neither name meets itself or the other at any offset, other than itself at the front. */
  lemma NamesApart()
    ensures NoOverlay(NATIVE, NATIVE, 1) && NoOverlay(CUSTOM, CUSTOM, 1)
    ensures NoOverlay(NATIVE, CUSTOM, 0) && NoOverlay(CUSTOM, NATIVE, 0)
  {
    var native, custom := NATIVE, CUSTOM;
    NativeStartsApart();
    CustomStartsApart();
    NamesDiffer();
    ApartNoOverlay(native, native);
    ApartNoOverlay(custom, custom);
    ApartNoOverlay(native, custom);
    ApartNoOverlay(custom, native);
  }

  // ---------------------------------------------------------------------------------------
  // Whole texts: the two directions undo each other
  // ---------------------------------------------------------------------------------------

  /** The two names, and what each is rewritten to. */
  lemma NamesExactly()
    ensures ToCustom("admissionregistration.k8s.io/v1alpha1") == "admissionregistration.x-k8s.io/v1alpha1"
    ensures ToNative("admissionregistration.x-k8s.io/v1alpha1") == "admissionregistration.k8s.io/v1alpha1"
  {
    ItselfReplaced(NATIVE, CUSTOM);
    ItselfReplaced(CUSTOM, NATIVE);
  }

  lemma ItselfReplaced(p: string, r: string)
    requires p != ""
    ensures ReplaceAll(p, p, r) == r
  {
    assert p[|p|..] == "";
  }

  /** A response rewrite undoes a request rewrite exactly for texts free of the custom name. */
  lemma RequestUndone(s: string)
    ensures ToNative(ToCustom(s)) == s <==> !Contains(s, CUSTOM)
  {
    NamesApart();
    if Contains(s, CUSTOM) {
      NoneLeft(ToCustom(s), CUSTOM, NATIVE);
    } else {
      ReplacingBack(s, NATIVE, CUSTOM);
    }
  }

  /** A request rewrite undoes a response rewrite exactly for texts free of the native name. */
  lemma ResponseUndone(s: string)
    ensures ToCustom(ToNative(s)) == s <==> !Contains(s, NATIVE)
  {
    NamesApart();
    if Contains(s, NATIVE) {
      NoneLeft(ToNative(s), NATIVE, CUSTOM);
    } else {
      ReplacingBack(s, CUSTOM, NATIVE);
    }
  }

  lemma RewritingIsComplete(s: string)
    ensures !Contains(ToCustom(s), NATIVE)
    ensures !Contains(ToNative(s), CUSTOM)
  {
    NamesApart();
    NoneLeft(s, NATIVE, CUSTOM);
    NoneLeft(s, CUSTOM, NATIVE);
  }

  /** How often a name is replaced: one less than the number of pieces it cuts the text into. */
  function Occurrences(s: string, name: string): (n: nat)
    requires name != ""
  {
    |Segments(s, name)| - 1
  }

  /** Two characters more or less for each occurrence, and a rewrite turns each occurrence of the
      one name into one of the other, in a text that had none. */
  lemma RewritingLengths(s: string)
    ensures |ToCustom(s)| == |s| + 2 * Occurrences(s, NATIVE)
    ensures |ToNative(s)| == |s| - 2 * Occurrences(s, CUSTOM)
    ensures !Contains(s, CUSTOM) ==> Occurrences(ToCustom(s), CUSTOM) == Occurrences(s, NATIVE)
    ensures !Contains(s, NATIVE) ==> Occurrences(ToNative(s), NATIVE) == Occurrences(s, CUSTOM)
  {
    NamesApart();
    OccurrencesCarryOver(s, NATIVE, CUSTOM);
    OccurrencesCarryOver(s, CUSTOM, NATIVE);
  }

  lemma OccurrencesCarryOver(s: string, p: string, r: string)
    requires p != "" && r != "" && (|r| == |p| + 2 || |p| == |r| + 2) && NoOverlay(r, r, 1)
    ensures |ReplaceAll(s, p, r)| == |s| + (if |r| > |p| then 2 else -2) * Occurrences(s, p)
    ensures !Contains(s, r) ==> Occurrences(ReplaceAll(s, p, r), r) == Occurrences(s, p)
  {
    hide ReplaceAll, Contains, Segments;
    var t := ReplaceAll(s, p, r);
    ReplaceAllLength(s, p, r);
    ReplaceAllLength(t, r, p);
    TimesTwo(Occurrences(s, p));
    TimesTwo(Occurrences(t, r));
    if !Contains(s, r) {
      ReplacingBack(s, p, r);
    }
  }

  lemma TimesTwo(n: nat)
    ensures Times(n, 2) == 2 * n && Times(n, -2) == -2 * n
  {
  }

  // ---------------------------------------------------------------------------------------
  // Bodies: rewritten line by line in a stream
  // ---------------------------------------------------------------------------------------

  lemma NamesHaveNoLineEnds()
    ensures OneLiners(NATIVE, CUSTOM)
  {
    assert Lacks(NATIVE, '\n') && Lacks(NATIVE, '\r');
    assert Lacks(CUSTOM, '\n') && Lacks(CUSTOM, '\r');
  }

  /** What the server receives when every line fits: the rewritten body without line endings. */
  lemma RequestBodyRefines(body: string)
    requires WithinLimit(body)
    ensures Streamed(body, NATIVE, CUSTOM) == Concat(Lines(ToCustom(body)))
  {
    hide Streamed, ReplaceAll, DropCR, Lacks;
    NamesHaveNoLineEnds();
    StreamRefinesWhole(body, NATIVE, CUSTOM);
  }

  /** The server receives the rewritten body itself exactly when that is a single line that fits. */
  lemma RequestBodyExact(body: string)
    ensures Streamed(body, NATIVE, CUSTOM) == ToCustom(body)
       <==> Lacks(body, '\n') && |body| < LIMIT && DropCR(body) == body
  {
    hide Streamed, ReplaceAll, DropCR, Lacks;
    NamesHaveNoLineEnds();
    StreamIsWholeExactly(body, NATIVE, CUSTOM);
  }

  // ---------------------------------------------------------------------------------------
  // Requests and responses
  // ---------------------------------------------------------------------------------------

  /** The path of a proxied request: the target's path and the client's, with one slash between. */
  function JoinPath(target: string, path: string): string {
    var left := target != "" && target[|target| - 1] == '/';
    var right := path != "" && path[0] == '/';
    if left && right then target + path[1..]
    else if !left && !right then target + "/" + path
    else target + path
  }

  /** Between the two there is one slash, whichever of them brings one, and nothing else changes. */
  lemma JoinPathExactly(target: string, path: string)
    requires target == "" || target[|target| - 1] != '/'
    requires path == "" || path[0] != '/'
    ensures JoinPath(target, path) == target + "/" + path
    ensures JoinPath(target + "/", path) == target + "/" + path
    ensures JoinPath(target, "/" + path) == target + "/" + path
    ensures JoinPath(target + "/", "/" + path) == target + "/" + path
  {
    assert ("/" + path)[1..] == path;
    assert (target + "/") + path == target + ("/" + path);
  }

  lemma JoinPathKeepsNames(target: string, path: string, name: string)
    requires name != "" && name[0] != '/'
    requires Contains(path, name)
    ensures Contains(JoinPath(target, path), name)
  {
    var out := JoinPath(target, path);
    var i :| 0 <= i <= |path| && name <= path[i..];
    assert name[0] == path[i];
    var shift := |out| - |path|;
    assert out[shift + i..] == path[i..];
  }

  class ProxyRequest {
    const inPath: string
    const inBody: string
    var path: string
    var rawPath: string
    var accept: string
    var contentLength: int
    var body: string

    constructor (inPath: string, inRawPath: string, accept: string, inBody: string)
      ensures this.inPath == inPath && this.inBody == inBody
      ensures path == inPath && rawPath == inRawPath && this.accept == accept
      ensures body == inBody && contentLength == |inBody|
    {
      this.inPath, this.inBody := inPath, inBody;
      path, rawPath, this.accept := inPath, inRawPath, accept;
      body, contentLength := inBody, |inBody|;
    }

    /** Points the request at the API server and, if the client asked for the native group,
        moves path and body to the custom one. */
    method Rewrite(target: string, joinedRawPath: string)
      modifies this
      ensures path == if Contains(inPath, NATIVE) then ToCustom(JoinPath(target, inPath)) else JoinPath(target, inPath)
      ensures rawPath == if Contains(inPath, NATIVE) then ToCustom(joinedRawPath) else joinedRawPath
      ensures Contains(inPath, NATIVE) ==>
                accept == "application/json" && contentLength == -1 && body == Streamed(inBody, NATIVE, CUSTOM)
      ensures !Contains(inPath, NATIVE) ==>
                accept == old(accept) && contentLength == old(contentLength) && body == old(body)
    {
      path := JoinPath(target, inPath);
      rawPath := joinedRawPath;
      if !Contains(inPath, NATIVE) {
        return;
      }
      path := ReplaceAll(path, NATIVE, CUSTOM);
      rawPath := ReplaceAll(rawPath, NATIVE, CUSTOM);
      accept := "application/json";
      contentLength := -1;
      body := StreamBody(inBody, NATIVE, CUSTOM);
    }
  }

  class ProxyResponse {
    const requestPath: string
    var body: string
    var contentLength: int
    var contentLengthHeader: int

    constructor (requestPath: string, body: string, contentLength: int, contentLengthHeader: int)
      ensures this.requestPath == requestPath && this.body == body
      ensures this.contentLength == contentLength && this.contentLengthHeader == contentLengthHeader
    {
      this.requestPath, this.body := requestPath, body;
      this.contentLength, this.contentLengthHeader := contentLength, contentLengthHeader;
    }

    /** `received` is what could be read of the body, all of it unless reading failed. */
    method ModifyResponse(received: string, readFailed: bool) returns (failed: bool)
      modifies this
      ensures failed <==> Contains(requestPath, CUSTOM) && readFailed
      ensures Contains(requestPath, CUSTOM) ==>
                && body == ToNative(received) && !Contains(body, CUSTOM)
                && contentLength == contentLengthHeader == |body|
      ensures !Contains(requestPath, CUSTOM) ==>
                && body == old(body) && contentLength == old(contentLength)
                && contentLengthHeader == old(contentLengthHeader)
    {
      if !Contains(requestPath, CUSTOM) {
        return false;
      }
      body := ReplaceAll(received, CUSTOM, NATIVE);
      RewritingIsComplete(received);
      contentLength := |body|;
      contentLengthHeader := |body|;
      failed := readFailed;
    }
  }

  /** The response is rewritten whenever the request was, and otherwise only if the path sent to
      the server names the custom group by itself. */
  lemma ResponseGuardFires(target: string, inPath: string)
    ensures
      var joined := JoinPath(target, inPath);
      var sent := if Contains(inPath, NATIVE) then ToCustom(joined) else joined;
      Contains(sent, CUSTOM) <==> Contains(inPath, NATIVE) || Contains(joined, CUSTOM)
  {
    hide ReplaceAll, Contains, JoinPath;
    ReplaceAllActs(JoinPath(target, inPath), NATIVE, CUSTOM);
    if Contains(inPath, NATIVE) {
      JoinPathKeepsNames(target, inPath, NATIVE);
    }
  }
}
