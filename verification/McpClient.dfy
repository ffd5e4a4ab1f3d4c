/** What a client finds in the replies of the bridge, looking them up by their member names. */
module McpClient {
  import opened Options
  import opened Json
  import opened JsonReader
  import opened McpPreview
  import opened McpBridge
  import opened McpStdio

  /** The member of this name, if the value is an object that has one. */
  function Member(j: Json, key: string): Option<Json> {
    if j.JObj? then Lookup(j.fields, key) else None
  }

  function Text(j: Option<Json>): Option<string> {
    if j.Some? && j.value.JStr? then Some(j.value.s) else None
  }

  function Items(j: Option<Json>): seq<Json> {
    if j.Some? && j.value.JArr? then j.value.items else []
  }

  lemma {:induction false} FirstMember(f: Field, more: seq<Field>, key: string)
    ensures Lookup([f] + more, key) == if f.key == key then Some(f.value) else Lookup(more, key)
  {
    assert ([f] + more)[1..] == more;
  }

  lemma {:induction false} TwoMembers(a: Field, b: Field)
    requires a.key != b.key
    ensures Member(JObj([a, b]), a.key) == Some(a.value) && Member(JObj([a, b]), b.key) == Some(b.value)
  {
    FirstMember(a, [b], a.key);
    FirstMember(a, [b], b.key);
    FirstMember(b, [], b.key);
    assert [a, b] == [a] + [b] && [b] == [b] + [];
  }

  lemma {:induction false} ThreeMembers(a: Field, b: Field, c: Field, other: string)
    requires a.key != b.key && a.key != c.key && b.key != c.key
    ensures var j := JObj([a, b, c]);
            && Member(j, a.key) == Some(a.value) && Member(j, b.key) == Some(b.value) && Member(j, c.key) == Some(c.value)
            && (other != a.key && other != b.key && other != c.key ==> Member(j, other) == None)
  {
    var fields := [a] + ([b] + ([c] + []));
    assert [a, b, c] == fields;
    forall key: string
      ensures Lookup(fields, key) ==
              if a.key == key then Some(a.value) else if b.key == key then Some(b.value)
              else if c.key == key then Some(c.value) else None
    {
      FirstMember(a, [b] + ([c] + []), key);
      FirstMember(b, [c] + [], key);
      FirstMember(c, [], key);
    }
  }

  /** Sections 5 and 5.1 of JSON-RPC 2.0: the version, the identifier, and either a result or an error. */
  lemma {:induction false} ReplyMembers(r: Reply)
    ensures var j := ReplyJson(r);
            && Text(Member(j, "jsonrpc")) == Some("2.0") && Member(j, "id") == Some(r.id)
            && (r.Result? ==> Member(j, "result") == Some(r.result) && Member(j, "error") == None)
            && (r.Error? ==>
                  && Member(j, "result") == None && Member(j, "error").Some?
                  && Member(Member(j, "error").value, "code") == Some(JNum(r.code))
                  && Text(Member(Member(j, "error").value, "message")) == Some(r.message))
  {
    var version, id := Field("jsonrpc", JStr("2.0")), Field("id", r.id);
    if r.Result? {
      ThreeMembers(version, id, Field("result", r.result), "error");
    } else {
      ThreeMembers(version, id, Field("error", ErrorBody(r.code, r.message)), "result");
      TwoMembers(Field("code", JNum(r.code)), Field("message", JStr(r.message)));
    }
  }

  /** The text of a tool's answer: the first content item's text. */
  function ToolText(reply: Json): Option<string> {
    var result := Member(reply, "result");
    if result.None? then None
    else
      var content := Items(Member(result.value, "content"));
      if content == [] then None else Text(Member(content[0], "text"))
  }

  function ToolFailed(reply: Json): Option<Json> {
    var result := Member(reply, "result");
    if result.None? then None else Member(result.value, "isError")
  }

  /** A client that reads the text of a tool's answer as JSON gets the answer, and whether it is an error. */
  lemma {:induction false} ToolReplyReads(id: Json, answer: Json, isError: bool)
    requires Readable(answer)
    ensures var j := ReplyJson(ToolReply(id, Encode(answer, false), isError));
            && ToolText(j).Some? && ReadValue(ToolText(j).value) == Some((answer, []))
            && ToolFailed(j) == Some(JBool(isError))
  {
    var text := Encode(answer, false);
    ValueReadsBack(answer, false, []);
    assert text + [] == text;
    hide Encode, ReadValue, Readable, ReplyJson;
    ReplyMembers(ToolReply(id, text, isError));
    var item := JObj([Field("type", JStr("text")), Field("text", JStr(text))]);
    TwoMembers(Field("type", JStr("text")), Field("text", JStr(text)));
    TwoMembers(Field("content", JArr([item])), Field("isError", JBool(isError)));
    hide Member;
  }

  /** So of a failed tool it gets the code and the message as far as it was sent. */
  lemma {:induction false} ToolErrorReads(id: Json, code: string, message: string)
    ensures var j := ReplyJson(ErrorReply(id, code, message));
            && ToolFailed(j) == Some(JBool(true)) && ToolText(j).Some?
            && var detail := ReadValue(ToolText(j).value);
            detail.Some? && Text(Member(detail.value.0, "code")) == Some(code)
            && Text(Member(detail.value.0, "message")) == Some(message)
  {
    ToolReplyReads(id, Detail(code, message), true);
    TwoMembers(Field("code", JStr(code)), Field("message", JStr(message)));
    hide ReplyJson, ReadValue, Encode, Member, ToolText, ToolFailed;
  }

  /** The tool list names the methods, in their order. */
  lemma {:induction false} ToolListNames(names: seq<string>, i: nat)
    requires i < |names|
    ensures var tools := Items(Member(ToolList(names), "tools"));
            |tools| == |names| && Text(Member(tools[i], "name")) == Some(names[i])
  {
    FirstMember(Field("tools", JArr(Descriptors(names))), [], "tools");
    assert [Field("tools", JArr(Descriptors(names)))] == [Field("tools", JArr(Descriptors(names)))] + [];
    var name := names[i];
    var description := JStr("Notebook Launcher semantic capability: " + name);
    var schema := JObj([Field("type", JStr("object")), Field("additionalProperties", JBool(true))]);
    ThreeMembers(Field("name", JStr(name)), Field("description", description), Field("inputSchema", schema), "");
  }

  /** A tool's result reaches the client as no error, and its text reads as the envelope of some preview limit. */
  lemma {:induction false} ToolValueReads(id: Json, envelope: nat -> Json, limit: nat, r: Reply)
    requires BoundedValue(id, envelope, limit, r) && forall p: nat :: Readable(envelope(p))
    ensures r.Error? ==> r == ToolTooLarge(id)
    ensures r.Result? ==>
              var j := ReplyJson(r);
              && ToolFailed(j) == Some(JBool(false)) && ToolText(j).Some?
              && exists p: nat :: 1 <= p <= limit && ReadValue(ToolText(j).value) == Some((envelope(p), []))
  {
    if r.Result? {
      var p: nat :| 1 <= p <= limit && r == ToolReply(id, Encode(envelope(p), false), false);
      hide Readable, Encode, ReadValue, ReplyJson, BoundedValue, PreviewFits;
      ToolReplyReads(id, envelope(p), false);
    }
  }

  /** The error codes of section 5.1 of JSON-RPC 2.0, by what was wrong with the line. */
  lemma {:induction false} CodesByLine(l: Line, names: Methods, limit: nat, r: Reply)
    requires Answers(l, names, limit, r)
    ensures l.Malformed? ==> r.Error? && r.code == "-32700" && r.id.JNull?
    ensures l.NotObject? ==> r.Error? && r.code == "-32600" && r.id.JNull?
    ensures l.Request? && !WellFormed(l) ==> r.Error? && r.code == "-32600"
    ensures l.Request? && WellFormed(l) && l.verb.value !in {"initialize", "ping", "tools/list", "tools/call"} ==>
              r.Error? && r.code == "-32601" && r.id == SafeId(l.id)
    ensures l.Request? && WellFormed(l) && l.verb.value == "tools/call" && l.backend.Invalid? ==>
              r.Error? && r.code == "-32602" && r.id == SafeId(l.id)
    ensures l.Request? && WellFormed(l) && l.verb.value == "tools/call" && l.backend.Broken? ==>
              r.Error? && r.code == "-32603" && r.id == SafeId(l.id)
  {
    hide InitializeResult, ToolList, BoundedValue, BoundedFailure, SafeId;
  }
}
