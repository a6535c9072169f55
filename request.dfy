/**
 * The request side of src/request.ts: a request composes its URL from
 * ordered segments, a transaction runs one request through a handler and
 * records how it ended, and a transaction error turns the server's error
 * payload into one message.
 */
module Requests {
  import opened Text
  import opened JsValues

  // ---------------------------------------------------------------------
  // MetalRequest
  // ---------------------------------------------------------------------

  /** A URL segment `{ path, prefix? }`; the empty prefix stands for an
      absent one, both being falsy. */
  datatype UrlSegment = UrlSegment(path: string, prefix: string)

  /** The one-element list of a truthy string, or nothing. */
  function Opt(s: string): (r: seq<string>)
    ensures |r| <= 1 && (r == [] <==> s == "")
  {
    if s == "" then [] else [s]
  }

  function Paths(segments: seq<UrlSegment>): (r: seq<string>)
    ensures |r| == |segments| && forall i :: 0 <= i < |segments| ==> r[i] == segments[i].path
  {
    seq(|segments|, i requires 0 <= i < |segments| => segments[i].path)
  }

  /** The pieces of the URL in order: the first segment's prefix, the
      request prefix, every segment path, the request suffix, each only
      when truthy. */
  function UrlPieces(segments: seq<UrlSegment>, prefix: string, suffix: string): seq<string>
    requires |segments| > 0
  {
    Opt(segments[0].prefix) + Opt(prefix) + Paths(segments) + Opt(suffix)
  }

  /** The `url` getter: the pieces joined by `/`; with no segment, reading
      `segments[0].prefix` throws. */
  function UrlOf(segments: seq<UrlSegment>, prefix: string, suffix: string): (r: Outcome<string>)
    ensures r.Threw? <==> |segments| == 0
  {
    if |segments| == 0 then Threw(TYPE_ERROR) else Returned(Join(UrlPieces(segments, prefix, suffix), "/"))
  }

  class MetalRequest {
    var segments: seq<UrlSegment>
    /** `options.prefix` and `options.suffix`, empty when unset. */
    var prefix: string
    var suffix: string

    constructor(prefix: string, suffix: string)
      ensures segments == [] && this.prefix == prefix && this.suffix == suffix
    {
      segments := [];
      this.prefix := prefix;
      this.suffix := suffix;
    }

    /** `url`: built on a mapped copy of the paths, so the request itself
        is not changed (the method has no `modifies` clause). */
    method Url() returns (url: Outcome<string>)
      ensures url == UrlOf(segments, prefix, suffix)
    {
      var pieces := Paths(segments);
      if suffix != "" {
        pieces := pieces + [suffix];
      }
      if prefix != "" {
        pieces := [prefix] + pieces;
      }
      if |segments| == 0 {
        return Threw(TYPE_ERROR);
      }
      if segments[0].prefix != "" {
        pieces := [segments[0].prefix] + pieces;
      }
      assert pieces == UrlPieces(segments, prefix, suffix);
      return Returned(Join(pieces, "/"));
    }

    /** `append(...segments)`: the new segments go last, in argument order,
        and the request itself is returned. */
    method Append(more: seq<UrlSegment>) returns (r: MetalRequest)
      modifies this
      ensures segments == old(segments) + more
      ensures prefix == old(prefix) && suffix == old(suffix)
      ensures r == this
    {
      segments := segments + more;
      return this;
    }

    /** `prepend(...segments)`: the new segments go first, in argument
        order, and the request itself is returned. */
    method Prepend(more: seq<UrlSegment>) returns (r: MetalRequest)
      modifies this
      ensures segments == more + old(segments)
      ensures prefix == old(prefix) && suffix == old(suffix)
      ensures r == this
    {
      segments := more + segments;
      return this;
    }
  }

  /** When no piece contains a slash, the URL splits back into its pieces:
      the prefixes first, the paths in segment order, the suffix last. */
  lemma UrlSplits(segments: seq<UrlSegment>, prefix: string, suffix: string)
    requires |segments| > 0
    requires forall p :: p in UrlPieces(segments, prefix, suffix) ==> Avoids(p, "/")
    ensures UrlOf(segments, prefix, suffix).Returned?
    ensures Split(UrlOf(segments, prefix, suffix).value, "/") == UrlPieces(segments, prefix, suffix)
  {
    var pieces := UrlPieces(segments, prefix, suffix);
    SplitJoin(pieces, "/");
  }

  /** Appending keeps the URL's prefixes and suffix and puts the new paths
      after the old ones. */
  lemma AppendUrl(segments: seq<UrlSegment>, more: seq<UrlSegment>, prefix: string, suffix: string)
    requires |segments| > 0
    ensures UrlPieces(segments + more, prefix, suffix)
         == Opt(segments[0].prefix) + Opt(prefix) + Paths(segments) + Paths(more) + Opt(suffix)
  {
    assert Paths(segments + more) == Paths(segments) + Paths(more);
  }

  /** Prepending puts the new paths first, and the first new segment's
      prefix leads the URL. */
  lemma PrependUrl(segments: seq<UrlSegment>, more: seq<UrlSegment>, prefix: string, suffix: string)
    requires |more| > 0
    ensures UrlPieces(more + segments, prefix, suffix)
         == Opt(more[0].prefix) + Opt(prefix) + Paths(more) + Paths(segments) + Opt(suffix)
  {
    assert Paths(more + segments) == Paths(more) + Paths(segments);
  }

  // ---------------------------------------------------------------------
  // MetalTransactionError
  // ---------------------------------------------------------------------

  /** The response of an HTTP call: its status code and its parsed body. */
  datatype Response = Response(status: int, data: Value)

  /** The error a handler rejects with: the HTTP client's message and the
      response, when there was one. */
  datatype HttpError = HttpError(message: string, response: Option<Response>)

  /** `error.response.data.errors`, undefined when any step is missing. */
  function ServerErrors(error: HttpError): Value {
    if error.response.None? then Undefined
    else
      var data := error.response.value.data;
      if Truthy(data) && data.Obj? then Get(data.fields, "errors") else Undefined
  }

  /** One element of an error list as a sentence: it is given a final
      period unless it has one. */
  function Sentence(s: string): (r: string)
    ensures EndsWith(r, ".") && StartsWith(r, s)
    ensures EndsWith(s, ".") ==> r == s
  {
    if EndsWith(s, ".") then s
    else
      var r := s + ".";
      assert r[..|s|] == s;
      r
  }

  /** What `map(str => ...)` writes for one element; a hole stays a hole,
      which `join` writes as nothing. */
  function SentenceText(sl: Slot): string
    requires sl.Hole? || sl.value.Str?
  {
    if sl.Hole? then "" else Sentence(sl.value.s)
  }

  /** The message built from an array of errors; an element that is not a
      string has no `endsWith`, and the call throws. */
  function SentencesMessage(items: seq<Slot>): (r: Outcome<string>)
    ensures r.Threw? <==> exists i :: 0 <= i < |items| && items[i].Item? && !items[i].value.Str?
  {
    if exists i :: 0 <= i < |items| && items[i].Item? && !items[i].value.Str? then Threw(TYPE_ERROR)
    else Returned(Join(SentenceTexts(items), " "))
  }

  /** The mapped list, when every element is a string or a hole. */
  function SentenceTexts(items: seq<Slot>): (r: seq<string>)
    requires forall i :: 0 <= i < |items| ==> items[i].Hole? || items[i].value.Str?
    ensures |r| == |items| && forall i :: 0 <= i < |items| ==> r[i] == SentenceText(items[i])
  {
    seq(|items|, i requires 0 <= i < |items| => SentenceText(items[i]))
  }

  /** `JSON.stringify` of a truthy value that is neither a string nor an
      array. String contents are written without escapes and a date as its
      ISO text in quotes (`Date.prototype.toJSON`). */
  function JsonText(v: Value): string
    decreases v
  {
    match v
    case Undefined => "null"
    case Null => "null"
    case Func(_) => "null"
    case Bool(b) => if b then "true" else "false"
    case Num(n) => IntToString(n)
    case Str(s) => "\"" + s + "\""
    case DateVal(d) => "\"" + IsoText(d) + "\""
    case Arr(items) => "[" + Join(JsonItems(items), ",") + "]"
    case Obj(fields) => "{" + Join(JsonMembers(fields), ",") + "}"
  }

  function JsonItems(items: seq<Slot>): (r: seq<string>)
    ensures |r| == |items|
    decreases items
  {
    if |items| == 0 then []
    else [JsonSlot(items[0])] + JsonItems(items[1..])
  }

  /** A hole, undefined or a function is written as null inside an array. */
  function JsonSlot(sl: Slot): string
    decreases sl
  {
    if sl.Hole? then "null" else JsonText(sl.value)
  }

  function JsonMembers(fields: seq<Field>): seq<string>
    decreases fields
  {
    if |fields| == 0 then []
    else if Omitted(fields[0].val) then JsonMembers(fields[1..])
    else ["\"" + fields[0].key + "\":" + JsonText(fields[0].val)] + JsonMembers(fields[1..])
  }

  /** The message of a transaction error: the client's message, replaced
      by the server's `errors` when those are truthy. */
  function ErrorMessage(error: HttpError): (r: Outcome<string>)
    ensures !Truthy(ServerErrors(error)) ==> r == Returned(error.message)
    ensures ServerErrors(error).Str? && Truthy(ServerErrors(error)) ==> r == Returned(ServerErrors(error).s)
    ensures r.Threw? ==> ServerErrors(error).Arr?
  {
    var errors := ServerErrors(error);
    if !Truthy(errors) then Returned(error.message)
    else if errors.Str? then Returned(errors.s)
    else if errors.Arr? then SentencesMessage(errors.items)
    else Returned(JsonText(errors))
  }

  /** The code of a transaction error: the response status when truthy. */
  function ErrorCode(error: HttpError): (r: Option<int>)
    ensures r.Some? <==> error.response.Some? && error.response.value.status != 0
    ensures r.Some? ==> r.value == error.response.value.status
  {
    if error.response.Some? && error.response.value.status != 0 then Some(error.response.value.status) else None
  }

  /** A list of string errors becomes one message whose sentences, split at
      the single spaces, are the errors with a final period each. */
  lemma SentencesSplit(errors: seq<string>)
    requires |errors| >= 1 && forall i :: 0 <= i < |errors| ==> Avoids(errors[i], " ")
    ensures var items := seq(|errors|, i requires 0 <= i < |errors| => Item(Str(errors[i])));
      SentencesMessage(items).Returned? &&
      Split(SentencesMessage(items).value, " ") == seq(|errors|, i requires 0 <= i < |errors| => Sentence(errors[i]))
  {
    var items := seq(|errors|, i requires 0 <= i < |errors| => Item(Str(errors[i])));
    var texts := SentenceTexts(items);
    var sentences := seq(|errors|, i requires 0 <= i < |errors| => Sentence(errors[i]));
    forall i | 0 <= i < |texts| ensures texts[i] == sentences[i] && Avoids(texts[i], " ") {
      assert items[i] == Item(Str(errors[i]));
      SentenceAvoids(errors[i]);
    }
    assert texts == sentences;
    SplitJoin(texts, " ");
  }

  /** Adding a period keeps a text free of spaces. */
  lemma SentenceAvoids(s: string)
    requires Avoids(s, " ")
    ensures Avoids(Sentence(s), " ")
  {
    if !EndsWith(s, ".") {
      forall j | 0 <= j < |s + "."| ensures (s + ".")[j] !in " " {
        if j < |s| { assert (s + ".")[j] == s[j]; }
      }
    }
  }

  /** Every sentence ends in exactly the period it had or was given:
      normalising twice changes nothing. */
  lemma SentenceIdempotent(s: string)
    ensures Sentence(Sentence(s)) == Sentence(s)
  {
  }

  class TransactionError {
    /** The response status, when there was a truthy one. */
    var code: Option<int>
    var message: string
    const error: HttpError
    const transaction: MetalTransaction

    /** `new MetalTransactionError(error, transaction)`, for an error whose
        message can be built (see MetalTransaction.Run for the case where
        building it throws). */
    constructor(error: HttpError, transaction: MetalTransaction)
      requires ErrorMessage(error).Returned?
      ensures this.error == error && this.transaction == transaction
      ensures code == ErrorCode(error)
      ensures message == ErrorMessage(error).value
    {
      this.error := error;
      this.transaction := transaction;
      code := None;
      message := error.message;
      new;
      if error.response.Some? {
        var status, data := error.response.value.status, error.response.value.data;
        if status != 0 {
          code := Some(status);
        }
        if Truthy(data) && data.Obj? && Truthy(Get(data.fields, "errors")) {
          var errors := Get(data.fields, "errors");
          if errors.Str? {
            message := errors.s;
          } else if errors.Arr? {
            message := SentencesMessage(errors.items).value;
          } else {
            message := JsonText(errors);
          }
        }
      }
    }
  }

  // ---------------------------------------------------------------------
  // MetalTransaction
  // ---------------------------------------------------------------------

  datatype TransactionState = Init | Running | Complete | Failed

  /** How the awaited handler call ends. */
  datatype HandlerOutcome = Resolved(response: Response) | Rejected(error: HttpError)

  class MetalTransaction {
    var status: TransactionState
    var response: Option<Response>
    var error: TransactionError?
    /** The states sent on `statusChange`, in order. */
    var emitted: seq<TransactionState>

    constructor()
      ensures status == Init && response == None && error == null && emitted == []
    {
      status := Init;
      response := None;
      error := null;
      emitted := [];
    }

    /** `run(handler)`, given how the handler's call ends. A rejection is
        recorded and re-thrown as a transaction error; when that error's
        message cannot be built, its constructor's TypeError is thrown
        instead and `error` keeps its old value. */
    method Run(outcome: HandlerOutcome) returns (r: Outcome<()>)
      modifies this
      ensures outcome.Resolved? ==>
        status == Complete && response == Some(outcome.response) && error == old(error) &&
        emitted == old(emitted) + [Running, Complete] && r == Returned(())
      ensures outcome.Rejected? ==>
        status == Failed && response == outcome.error.response &&
        emitted == old(emitted) + [Running, Failed]
      ensures outcome.Rejected? && ErrorMessage(outcome.error).Returned? ==>
        error != null && fresh(error) && error.error == outcome.error && error.transaction == this &&
        error.code == ErrorCode(outcome.error) && error.message == ErrorMessage(outcome.error).value &&
        r == Threw(error.message)
      ensures outcome.Rejected? && ErrorMessage(outcome.error).Threw? ==>
        error == old(error) && r == Threw(TYPE_ERROR)
    {
      status := Running;
      emitted := emitted + [status];
      match outcome {
        case Resolved(res) =>
          response := Some(res);
          status := Complete;
          emitted := emitted + [status];
          return Returned(());
        case Rejected(e) =>
          response := e.response;
          status := Failed;
          emitted := emitted + [status];
          if ErrorMessage(e).Threw? {
            return Threw(TYPE_ERROR);
          }
          var te := new TransactionError(e, this);
          error := te;
          return Threw(te.message);
      }
    }
  }
}
