/** JSON-RPC replies of the MCP bridge, each on one line that never exceeds the output limit. */
module McpBridge {
  import opened Json
  import opened McpWords

  const ParseError := "-32700"
  const InvalidRequest := "-32600"
  const MethodNotFound := "-32601"
  const InvalidParams := "-32602"
  const InternalError := "-32603"
  const ServerError := "-32000"

  const MaxIdBytes := 128

  predicate Code(code: string) {
    code in {ParseError, InvalidRequest, MethodNotFound, InvalidParams, InternalError, ServerError}
  }

  /******* Replies *******/

  datatype Reply = Result(id: Json, result: Json) | Error(id: Json, code: string, message: string)

  function ErrorBody(code: string, message: string): Json {
    JObj([Field("code", JNum(code)), Field("message", JStr(message))])
  }

  function ReplyJson(r: Reply): Json {
    match r
    case Result(id, result) => JObj([Field("jsonrpc", JStr("2.0")), Field("id", id), Field("result", result)])
    case Error(id, code, message) =>
      JObj([Field("jsonrpc", JStr("2.0")), Field("id", id), Field("error", ErrorBody(code, message))])
  }

  /** _response_size counts the newline. */
  function ReplySize(r: Reply, ascii: bool): nat {
    Size(ReplyJson(r), ascii) + 1
  }

  /** _safe_request_id; JNull stands for None. */
  function SafeId(id: Json): Json {
    match id
    case JStr(s) => if Width(s) <= MaxIdBytes then id else JNull
    case JNum(text) =>
      if text == "NaN" || text == "Infinity" || text == "-Infinity" || Width(text) > MaxIdBytes then JNull else id
    case _ => JNull
  }

  predicate Safe(id: Json) {
    SafeId(id) == id
  }

  /******* Tools *******/

  /** The methods of an adapter, in sorted order: cell.read, notebook.read and output.read in both modes. */
  type Methods = names: seq<string> | |names| >= 3 witness ["cell.read", "notebook.read", "output.read"]

  function Descriptor(name: string): Json {
    JObj([Field("name", JStr(name)),
          Field("description", JStr("Notebook Launcher semantic capability: " + name)),
          Field("inputSchema", JObj([Field("type", JStr("object")), Field("additionalProperties", JBool(true))]))])
  }

  function Descriptors(names: seq<string>): seq<Json> {
    seq(|names|, i requires 0 <= i < |names| => Descriptor(names[i]))
  }

  function ToolList(names: seq<string>): Json {
    JObj([Field("tools", JArr(Descriptors(names)))])
  }

  function Nuls(n: nat): string {
    seq(n, (i: int) => 0 as char)
  }

  /** An ASCII control character is one byte and becomes a six-byte escape. */
  function LargestId(): Json {
    JStr(Nuls(MaxIdBytes))
  }

  /** minimum_mcp_output_bytes, which is also what the adapter's constructor demands. */
  function MinimumOutput(names: seq<string>): nat {
    ReplySize(Result(LargestId(), ToolList(names)), false)
  }

  function InitializeResult(): Json {
    JObj([Field("protocolVersion", JStr("2025-06-18")),
          Field("capabilities", JObj([Field("tools", JObj([Field("listChanged", JBool(false))]))])),
          Field("serverInfo", JObj([Field("name", JStr("notebook-launcher")), Field("version", JStr("0.1.0"))]))])
  }

  /******* Sizes of replies *******/

  lemma {:induction false} OneField(a: Field, ascii: bool)
    ensures Size(JObj([a]), ascii) == 5 + EscapedSize(a.key, ascii) + Size(a.value, ascii)
  {
    assert [a][1..] == [];
    assert FieldsSize([a], ascii) == 3 + EscapedSize(a.key, ascii) + Size(a.value, ascii);
  }

  lemma {:induction false} TwoFields(a: Field, b: Field, ascii: bool)
    ensures Size(JObj([a, b]), ascii) ==
            9 + EscapedSize(a.key, ascii) + Size(a.value, ascii) + EscapedSize(b.key, ascii) + Size(b.value, ascii)
  {
    assert [a, b][1..] == [b];
    OneField(b, ascii);
  }

  lemma {:induction false} ThreeFields(a: Field, b: Field, c: Field, ascii: bool)
    ensures Size(JObj([a, b, c]), ascii) ==
            13 + EscapedSize(a.key, ascii) + Size(a.value, ascii) + EscapedSize(b.key, ascii) + Size(b.value, ascii)
            + EscapedSize(c.key, ascii) + Size(c.value, ascii)
  {
    assert [a, b, c][1..] == [b, c];
    TwoFields(b, c, ascii);
  }

  lemma {:induction false} ReplySizeIs(r: Reply, ascii: bool)
    ensures r.Result? ==> ReplySize(r, ascii) == 34 + Size(r.id, ascii) + Size(r.result, ascii)
    ensures r.Error? ==> ReplySize(r, ascii) == 33 + Size(r.id, ascii) + Size(ErrorBody(r.code, r.message), ascii)
  {
    WordJsonrpc(ascii);
    Word_2_0(ascii);
    WordId(ascii);
    WordResult(ascii);
    WordError(ascii);
    var third := if r.Result? then Field("result", r.result) else Field("error", ErrorBody(r.code, r.message));
    ThreeFields(Field("jsonrpc", JStr("2.0")), Field("id", r.id), third, ascii);
  }

  lemma {:induction false} ErrorBodySize(code: string, message: string, ascii: bool)
    requires Code(code)
    ensures Size(ErrorBody(code, message), ascii) == 28 + EscapedSize(message, ascii)
  {
    WordCodeKey(ascii);
    WordMessage(ascii);
    WordCode(code);
    TwoFields(Field("code", JNum(code)), Field("message", JStr(message)), ascii);
  }

  lemma {:induction false} NulSize(n: nat)
    ensures EscapedSize(Nuls(n), false) == 6 * n
  {
    if n > 0 {
      NulSize(n - 1);
      assert Nuls(n)[1..] == Nuls(n - 1);
    } else {
      assert Nuls(n) == "";
    }
  }

  /** No accepted identifier is larger on the wire than 128 NULs, in either encoding. */
  lemma {:induction false} SafeIdSize(id: Json, ascii: bool)
    requires Safe(id)
    ensures Size(id, ascii) <= Size(LargestId(), false) == 770
  {
    NulSize(MaxIdBytes);
    if id.JStr? {
      EscapedGrowth(id.s, ascii);
    }
  }

  lemma {:induction false} DescriptorSize(name: string)
    ensures Size(Descriptor(name), false) >= 64
  {
    var description := JStr("Notebook Launcher semantic capability: " + name);
    var schema := JObj([Field("type", JStr("object")), Field("additionalProperties", JBool(true))]);
    EscapedGrowth("description", false);
    EscapedGrowth(description.s, false);
    ThreeFields(Field("name", JStr(name)), Field("description", description), Field("inputSchema", schema), false);
  }

  lemma {:induction false} ItemsAtLeast(items: seq<Json>)
    requires forall i :: 0 <= i < |items| ==> Size(items[i], false) >= 64
    ensures ItemsSize(items, false) >= 64 * |items|
  {
    if items != [] {
      ItemsAtLeast(items[1..]);
    }
  }

  lemma {:induction false} ToolListSize(names: Methods)
    ensures Size(ToolList(names), false) >= 192
  {
    var ds := Descriptors(names);
    forall i | 0 <= i < |ds|
      ensures Size(ds[i], false) >= 64
    {
      DescriptorSize(names[i]);
    }
    ItemsAtLeast(ds);
    OneField(Field("tools", JArr(ds)), false);
  }

  lemma {:induction false} CapabilitiesSize()
    ensures Size(JObj([Field("tools", JObj([Field("listChanged", JBool(false))]))]), false) == 31
  {
    WordTools(false);
    WordListChanged(false);
    OneField(Field("listChanged", JBool(false)), false);
    OneField(Field("tools", JObj([Field("listChanged", JBool(false))])), false);
  }

  lemma {:induction false} ServerInfoSize()
    ensures Size(JObj([Field("name", JStr("notebook-launcher")), Field("version", JStr("0.1.0"))]), false) == 46
  {
    WordName(false);
    WordNotebookLauncher(false);
    WordVersion(false);
    Word_0_1_0(false);
    TwoFields(Field("name", JStr("notebook-launcher")), Field("version", JStr("0.1.0")), false);
  }

  lemma {:induction false} InitializeSize()
    ensures Size(InitializeResult(), false) <= 192
  {
    WordProtocolVersion(false);
    Word_2025_06_18(false);
    WordCapabilities(false);
    WordServerInfo(false);
    CapabilitiesSize();
    ServerInfoSize();
    ThreeFields(Field("protocolVersion", JStr("2025-06-18")),
                Field("capabilities", JObj([Field("tools", JObj([Field("listChanged", JBool(false))]))])),
                Field("serverInfo", JObj([Field("name", JStr("notebook-launcher")), Field("version", JStr("0.1.0"))])), false);
  }

  /** The minimum is the largest identifier with the tool list. */
  lemma {:induction false} MinimumIs(names: seq<string>)
    ensures MinimumOutput(names) == 804 + Size(ToolList(names), false)
  {
    ReplySizeIs(Result(LargestId(), ToolList(names)), false);
    SafeIdSize(JNull, false);
  }

  /** A result no larger than the tool list fits under the constructor's minimum, whatever the safe id. */
  lemma {:induction false} ResultFits(id: Json, result: Json, names: Methods, limit: nat)
    requires Safe(id) && limit >= MinimumOutput(names)
    requires Size(result, false) <= Size(ToolList(names), false)
    ensures ReplySize(Result(id, result), false) <= limit
  {
    MinimumIs(names);
    SafeIdSize(id, false);
    ReplySizeIs(Result(id, result), false);
  }

  /** So does every error with an empty message, in the ASCII encoding of oversized errors. */
  lemma {:induction false} EmptyErrorFits(id: Json, code: string, names: Methods, limit: nat)
    requires Safe(id) && Code(code) && limit >= MinimumOutput(names)
    ensures ReplySize(Error(id, code, ""), true) <= limit
  {
    MinimumIs(names);
    ToolListSize(names);
    SafeIdSize(id, true);
    ReplySizeIs(Error(id, code, ""), true);
    ErrorBodySize(code, "", true);
  }
}
