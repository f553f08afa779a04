/** The JSON-RPC 2.0 message codec, from a JSON value to a message and back. */
module Codec {
  import opened Prelude

  type I64 = n: int | -0x8000_0000_0000_0000 <= n < 0x8000_0000_0000_0000

  /** The integers a JSON number can hold exactly: any i64 or u64. */
  type JsonInt = n: int | -0x8000_0000_0000_0000 <= n < 0x1_0000_0000_0000_0000

  datatype Number = Int(n: JsonInt) | Frac(r: real)

  datatype Json =
    | Null
    | Bool(b: bool)
    | Num(number: Number)
    | Str(s: string)
    | Arr(items: seq<Json>)
    | Obj(fields: map<string, Json>)

  datatype Id = IdNum(n: I64) | IdStr(s: string) | IdNull

  datatype RpcError = RpcError(code: I64, message: string, data: Option<Json>)

  datatype Message =
    | Request(id: Id, method_: string, params: Json)
    | Notification(method_: string, params: Json)
    | Response(id: Id, result: Result<Json, RpcError>)

  datatype DecodeError = NotAnObject | WrongVersion | BadError | NeitherShape

  predicate FitsI64(n: int) {
    -0x8000_0000_0000_0000 <= n < 0x8000_0000_0000_0000
  }

  function IdToValue(id: Id): Json {
    match id
    case IdNum(n) => Num(Int(n))
    case IdStr(s) => Str(s)
    case IdNull => Null
  }

  /** A number that is not an i64 collapses to 0; anything but a number or a string to null. */
  function IdFromValue(v: Json): Id {
    match v
    case Num(Int(n)) => IdNum(if FitsI64(n) then n else 0)
    case Num(Frac(_)) => IdNum(0)
    case Str(s) => IdStr(s)
    case _ => IdNull
  }

  function ErrorToValue(e: RpcError): Json {
    var base := map["code" := Num(Int(e.code)), "message" := Str(e.message)];
    Obj(if e.data.Some? then base["data" := e.data.value] else base)
  }

  /** An optional field reads an explicit null as absent. */
  function OptionalValue(v: Json): Option<Json> {
    if v.Null? then None else Some(v)
  }

  function ErrorOf(code: Json, message: Json, data: Option<Json>): Option<RpcError> {
    if code.Num? && code.number.Int? && FitsI64(code.number.n) && message.Str?
    then Some(RpcError(code.number.n, message.s, data))
    else None
  }

  /** The derived reader takes an object by field name or an array by position. */
  function ErrorFromValue(v: Json): Option<RpcError> {
    match v
    case Obj(o) =>
      if "code" in o && "message" in o
      then ErrorOf(o["code"], o["message"], if "data" in o then OptionalValue(o["data"]) else None)
      else None
    case Arr(a) =>
      if |a| == 2 then ErrorOf(a[0], a[1], None)
      else if |a| == 3 then ErrorOf(a[0], a[1], OptionalValue(a[2]))
      else None
    case _ => None
  }

  function Encode(m: Message): Json {
    var base := map["jsonrpc" := Str("2.0")];
    match m
    case Request(id, name, params) =>
      Obj(base["method" := Str(name)]["params" := params]["id" := IdToValue(id)])
    case Notification(name, params) =>
      Obj(base["method" := Str(name)]["params" := params])
    case Response(id, Ok(v)) =>
      Obj(base["id" := IdToValue(id)]["result" := v])
    case Response(id, Err(e)) =>
      Obj(base["id" := IdToValue(id)]["error" := ErrorToValue(e)])
  }

  function IdField(o: map<string, Json>): Id {
    if "id" in o then IdFromValue(o["id"]) else IdNull
  }

  function Decode(v: Json): Result<Message, DecodeError> {
    if !v.Obj? then Err(NotAnObject)
    else
      var o := v.fields;
      if !("jsonrpc" in o && o["jsonrpc"] == Str("2.0")) then Err(WrongVersion)
      else
        var params := if "params" in o then o["params"] else Null;
        if "method" in o && o["method"].Str? then
          if "id" in o then Ok(Request(IdField(o), o["method"].s, params))
          else Ok(Notification(o["method"].s, params))
        else if "error" in o then
          var e := ErrorFromValue(o["error"]);
          if e.Some? then Ok(Response(IdField(o), Err(e.value))) else Err(BadError)
        else if "result" in o then Ok(Response(IdField(o), Ok(o["result"])))
        else Err(NeitherShape)
  }

  /** The one message shape the wire cannot tell apart from another: error data that is an explicit null. */
  predicate NullData(m: Message) {
    m.Response? && m.result.Err? && m.result.error.data == Some(Null)
  }

  /** What a message becomes on the far side. */
  function Normal(m: Message): Message {
    if NullData(m) then m.(result := Err(m.result.error.(data := None))) else m
  }

  lemma IdRoundTrip(id: Id)
    ensures IdFromValue(IdToValue(id)) == id
  {
  }

  lemma ErrorRoundTrip(e: RpcError)
    ensures ErrorFromValue(ErrorToValue(e)) == Some(if e.data == Some(Null) then e.(data := None) else e)
  {
  }

  /** Every message survives the wire exactly when its error data is not an explicit null. */
  lemma RoundTrip(m: Message)
    ensures Decode(Encode(m)) == Ok(Normal(m))
    ensures Decode(Encode(m)) == Ok(m) <==> !NullData(m)
  {
    if m.Response? {
      IdRoundTrip(m.id);
      if m.result.Err? {
        ErrorRoundTrip(m.result.error);
      }
    }
  }

  /** Whatever is accepted is a message that survives the wire, so re-encoding loses nothing more. */
  lemma DecodeIsStable(v: Json)
    requires Decode(v).Ok?
    ensures !NullData(Decode(v).value)
    ensures Decode(Encode(Decode(v).value)) == Decode(v)
  {
    RoundTrip(Decode(v).value);
  }

  /** The object shapes of JSON-RPC 2.0: sections 4 (request), 4.1 (notification), 5 and 5.1 (response). */
  predicate Conforms(v: Json) {
    && v.Obj?
    && var o := v.fields;
    && "jsonrpc" in o && o["jsonrpc"] == Str("2.0")
    && ("id" in o ==> o["id"].Str? || o["id"].Null? || o["id"].Num?)
    && ("method" in o ==> o["method"].Str? && "result" !in o && "error" !in o)
    && ("method" !in o ==> "id" in o && ("result" in o <==> "error" !in o))
    && ("error" in o ==> ConformingError(o["error"]))
  }

  predicate ConformingError(e: Json) {
    && e.Obj?
    && "code" in e.fields && e.fields["code"].Num? && e.fields["code"].number.Int? && FitsI64(e.fields["code"].number.n)
    && "message" in e.fields && e.fields["message"].Str?
  }

  /** The encoder only produces conforming objects, and every conforming object is accepted as the shape it has. */
  lemma EncodeConforms(m: Message)
    ensures Conforms(Encode(m))
    ensures m.Notification? <==> "id" !in Encode(m).fields
  {
  }

  lemma ConformingAccepted(v: Json)
    requires Conforms(v)
    ensures Decode(v).Ok?
    ensures Decode(v).value.Request? <==> "method" in v.fields && "id" in v.fields
    ensures Decode(v).value.Notification? <==> "id" !in v.fields
    ensures Decode(v).value.Response? <==> "method" !in v.fields
  {
  }

  // ----- what is read -------------------------------------------------------------------------

  /** The id that a JSON value stands for. */
  predicate ReadsAsId(v: Json, id: Id) {
    && (v.Str? ==> id == IdStr(v.s))
    && (v.Num? && v.number.Int? && FitsI64(v.number.n) ==> id == IdNum(v.number.n))
    && (v.Num? && !(v.number.Int? && FitsI64(v.number.n)) ==> id == IdNum(0))
    && (!v.Str? && !v.Num? ==> id == IdNull)
  }

  lemma IdReadsAs(o: map<string, Json>)
    ensures if "id" in o then ReadsAsId(o["id"], IdField(o)) else IdField(o) == IdNull
  {
  }

  /** A request or notification is read by its method, its parameters - null if it has none - and its id. */
  lemma RequestReads(v: Json)
    requires v.Obj? && "jsonrpc" in v.fields && v.fields["jsonrpc"] == Str("2.0") && "method" in v.fields && v.fields["method"].Str?
    ensures Decode(v).Ok?
    ensures var o, m := v.fields, Decode(v).value;
      && (if "id" in o then m.Request? && ReadsAsId(o["id"], m.id) else m.Notification?)
      && (m.Request? || m.Notification?)
      && m.method_ == o["method"].s && m.params == (if "params" in o then o["params"] else Null)
  {
    IdReadsAs(v.fields);
  }

  /** Anything else of that version is a response: an error, if there is one, else the result, and the id it bears. */
  lemma ResponseReads(v: Json)
    requires v.Obj? && "jsonrpc" in v.fields && v.fields["jsonrpc"] == Str("2.0") && !("method" in v.fields && v.fields["method"].Str?)
    ensures var o := v.fields;
      && (Decode(v).Ok? <==> if "error" in o then ErrorFromValue(o["error"]).Some? else "result" in o)
      && (Decode(v).Ok? ==>
            && Decode(v).value.Response?
            && (if "id" in o then ReadsAsId(o["id"], Decode(v).value.id) else Decode(v).value.id == IdNull)
            && (if "error" in o then Decode(v).value.result.Err? && Some(Decode(v).value.result.error) == ErrorFromValue(o["error"])
                else Decode(v).value.result == Ok(o["result"])))
  {
    IdReadsAs(v.fields);
  }

  /** What is no object, or of another version, is refused. */
  lemma OthersRefused(v: Json)
    requires !v.Obj? || !("jsonrpc" in v.fields && v.fields["jsonrpc"] == Str("2.0"))
    ensures Decode(v).Err?
  {
  }

  /** An error object is read by its code, its message and its data, absent if it is null. */
  lemma ErrorReads(e: Json)
    requires ConformingError(e)
    ensures ErrorFromValue(e) == Some(RpcError(e.fields["code"].number.n, e.fields["message"].s,
              if "data" in e.fields && e.fields["data"] != Null then Some(e.fields["data"]) else None))
  {
  }

  /** An error written as an array is read by position. */
  lemma ErrorArrayReads(code: I64, message: string, data: Json)
    ensures ErrorFromValue(Arr([Num(Int(code)), Str(message)])) == Some(RpcError(code, message, None))
    ensures ErrorFromValue(Arr([Num(Int(code)), Str(message), data])) ==
              Some(RpcError(code, message, if data == Null then None else Some(data)))
  {
  }
}
